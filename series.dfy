/** Writing the bar series of one provider answer into the store, one
    after the other, until a write fails. The older revision stores only
    the bars of each series; the newer one first refreshes the series'
    ticker row (`upsert_ticker`, taken to be `update_ticker`). The answer's
    series arrive in an arbitrary order, and that order is the order they
    are written in: the model runs the concurrent writes one at a time. */
module Series {
  import opened Wrappers
  import opened Models
  import opened Upserts
  import opened Db
  import opened Provider

  /** The outcome of the ticker refresh for series i, when the revision does one. */
  function RefreshAt(refresh: Option<nat -> TxOutcome>, i: nat): Option<TxOutcome>
  {
    if refresh.Some? then Some(refresh.value(i)) else None
  }

  /** Whether series s is written completely: its refresh commits (if there
      is one) and every sub-batch of its bars commits. */
  predicate SeriesWritten(s: ChartData, refresh: Option<TxOutcome>, tx: nat -> TxOutcome)
  {
    (refresh.None? || refresh.value.Committed?) && UpsertOutcome(|s.data|, tx).Ok?
  }

  /** The tables after writing series s, and whether it was written completely. */
  function StoreSeries(t: Tables, s: ChartData, interval: Interval, refresh: Option<TxOutcome>,
                       tx: nat -> TxOutcome): (Tables, bool)
  {
    if refresh.Some? && refresh.value.Failed? then (t, false)
    else
      var row := TickerOfInfo(s.symbolInfo);
      var tickers := if refresh.Some? then t.tickers[KeyOf(row) := row] else t.tickers;
      var n := |s.data|;
      var key := CandleKeyer(s.symbolInfo.symbol, s.symbolInfo.exchange, interval);
      (Tables(tickers, Upsert(t.ohlcv, s.data[..StoredRows(n, tx)], key)), UpsertOutcome(n, tx).Ok?)
  }

  /** Series i, i+1, ... written in turn, stopping after the first that is
      not written completely. */
  function StoreAll(t: Tables, series: seq<ChartData>, interval: Interval, refresh: Option<nat -> TxOutcome>,
                    txs: nat -> nat -> TxOutcome, i: nat): (Tables, bool)
    requires i <= |series|
    decreases |series| - i
  {
    if i == |series| then (t, true)
    else
      var (t', ok) := StoreSeries(t, series[i], interval, RefreshAt(refresh, i), txs(i));
      if ok then StoreAll(t', series, interval, refresh, txs, i + 1) else (t', false)
  }

  /** The series are all stored exactly when each of them is written completely. */
  lemma {:induction false} StoreAllOk(t: Tables, series: seq<ChartData>, interval: Interval,
                                      refresh: Option<nat -> TxOutcome>, txs: nat -> nat -> TxOutcome, i: nat)
    requires i <= |series|
    ensures StoreAll(t, series, interval, refresh, txs, i).1 <==>
      forall j | i <= j < |series| :: SeriesWritten(series[j], RefreshAt(refresh, j), txs(j))
    decreases |series| - i
  {
    if i < |series| {
      var step := StoreSeries(t, series[i], interval, RefreshAt(refresh, i), txs(i));
      StoreSeriesOk(t, series[i], interval, RefreshAt(refresh, i), txs(i));
      StoreAllOk(step.0, series, interval, refresh, txs, i + 1);
      assert StoreAll(t, series, interval, refresh, txs, i) ==
        if step.1 then StoreAll(step.0, series, interval, refresh, txs, i + 1) else (step.0, false);
    }
  }

  /** A series is reported as written exactly when it is written completely. */
  lemma StoreSeriesOk(t: Tables, s: ChartData, interval: Interval, refresh: Option<TxOutcome>, tx: nat -> TxOutcome)
    ensures StoreSeries(t, s, interval, refresh, tx).1 <==> SeriesWritten(s, refresh, tx)
  {
  }

  /** Without refreshes the tickers table is never touched. */
  lemma {:induction false} StoreAllKeepsTickers(t: Tables, series: seq<ChartData>, interval: Interval,
                                                txs: nat -> nat -> TxOutcome, i: nat)
    requires i <= |series|
    ensures StoreAll(t, series, interval, None, txs, i).0.tickers == t.tickers
    decreases |series| - i
  {
    if i < |series| {
      var (t', ok) := StoreSeries(t, series[i], interval, None, txs(i));
      StoreAllKeepsTickers(t', series, interval, txs, i + 1);
    }
  }

  /** One series written: the run from i is the run from i + 1 on the
      new tables when it was written completely, and ends otherwise. */
  lemma StoreAllAdvance(t: Tables, t': Tables, ok: bool, series: seq<ChartData>, interval: Interval,
                        refresh: Option<nat -> TxOutcome>, txs: nat -> nat -> TxOutcome, i: nat)
    requires i < |series|
    requires StoreSeries(t, series[i], interval, RefreshAt(refresh, i), txs(i)) == (t', ok)
    ensures ok ==> StoreAll(t, series, interval, refresh, txs, i) == StoreAll(t', series, interval, refresh, txs, i + 1)
    ensures !ok ==> StoreAll(t, series, interval, refresh, txs, i) == (t', false)
  {
  }

  /** What StoreSeries amounts to when the bars alone are written. */
  lemma StoreSeriesBars(t: Tables, s: ChartData, interval: Interval, tx: nat -> TxOutcome,
                        ohlcv': map<CandleKey, Candle>, ok: bool)
    requires ohlcv' == Upsert(t.ohlcv, s.data[..StoredRows(|s.data|, tx)],
                              CandleKeyer(s.symbolInfo.symbol, s.symbolInfo.exchange, interval))
    requires ok == UpsertOutcome(|s.data|, tx).Ok?
    ensures StoreSeries(t, s, interval, None, tx) == (Tables(t.tickers, ohlcv'), ok)
  {
  }

  /** What StoreSeries amounts to when the ticker refresh commits and
      the bars are written after it. */
  lemma StoreSeriesRefreshed(t: Tables, s: ChartData, interval: Interval, outcome: TxOutcome, tx: nat -> TxOutcome,
                             tickers': map<TickerKey, Ticker>, ohlcv': map<CandleKey, Candle>, ok: bool)
    requires outcome.Committed?
    requires tickers' == t.tickers[KeyOf(TickerOfInfo(s.symbolInfo)) := TickerOfInfo(s.symbolInfo)]
    requires ohlcv' == Upsert(t.ohlcv, s.data[..StoredRows(|s.data|, tx)],
                              CandleKeyer(s.symbolInfo.symbol, s.symbolInfo.exchange, interval))
    requires ok == UpsertOutcome(|s.data|, tx).Ok?
    ensures StoreSeries(t, s, interval, Some(outcome), tx) == (Tables(tickers', ohlcv'), ok)
  {
  }
}
