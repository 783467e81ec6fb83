/** The newer revision of the fetch drivers, src/finance/cmd.rs. As in
    FinanceUtils, provider answers and transaction outcomes are parameters.
    This revision registers unknown tickers instead of rejecting them,
    validates and registers a whole batch before asking for it, refreshes
    each series' ticker row before storing its bars, and adds the intraday
    driver, which fetches ticker by ticker and never fails on a single
    ticker's error. */
module FinanceCmd {
  import opened Wrappers
  import opened Models
  import opened Batches
  import opened Ordering
  import opened Upserts
  import opened Db
  import opened Provider
  import opened Series
  import opened Retry
  import FinanceUtils

  /** A ticker the drivers accept: neither symbol nor exchange is empty. */
  predicate ValidTicker(t: Ticker)
  {
    t.symbol != "" && t.exchange != ""
  }

  /** What a price write reports to the drivers. */
  function PriceResult(data: seq<Candle>, tx: nat -> TxOutcome): (r: Result<(), FetchError>)
    ensures r.Ok? <==> UpsertOutcome(|data|, tx).Ok?
  {
    FinanceUtils.StoreResult(UpsertOutcome(|data|, tx))
  }

  /** `fetch_prices`: validates the ticker, registers it with a one-row
      upsert when the store does not know it, then asks the provider for
      its bars and stores them. */
  method FetchPrices(db: Database, ticker: Ticker, interval: Interval, replay: bool,
                     response: Option<ChartData>, registerTx: nat -> TxOutcome, tx: nat -> TxOutcome)
    returns (r: Result<(), FetchError>, requests: seq<Request>)
    requires db.Valid()
    modifies db
    ensures db.Valid()
    ensures !ValidTicker(ticker) ==>
      r == Err(EmptySymbolOrExchange) && requests == [] && db.State() == old(db.State())
    ensures ValidTicker(ticker) && KeyOf(ticker) !in old(db.tickers) && registerTx(0).Failed? ==>
      r == Err(Store(SubBatchFailed(0))) && requests == [] && db.State() == old(db.State())
    ensures ValidTicker(ticker) && (KeyOf(ticker) in old(db.tickers) || registerTx(0).Committed?) ==>
      && db.tickers == (if KeyOf(ticker) in old(db.tickers) then old(db.tickers)
                        else old(db.tickers)[KeyOf(ticker) := ticker])
      && requests == [Single(ticker.symbol, ticker.exchange, interval, replay)]
      && (response.None? ==> r == Err(ProviderFailed) && db.ohlcv == old(db.ohlcv))
      && (response.Some? ==>
            var data := response.value.data;
            && r == PriceResult(data, tx)
            && db.ohlcv == Upsert(old(db.ohlcv), data[..StoredRows(|data|, tx)],
                                  CandleKeyer(ticker.symbol, ticker.exchange, interval)))
    ensures KeyOf(ticker) in old(db.tickers) ==>
      && r == KnownOutcome(ticker, response, tx) && db.tickers == old(db.tickers)
      && db.ohlcv == KnownBars(old(db.ohlcv), ticker, interval, response, tx)
  {
    requests := [];
    if ticker.symbol == "" || ticker.exchange == "" {
      return Err(EmptySymbolOrExchange), requests;
    }
    var existing := db.GetTicker(ticker.symbol, ticker.exchange);
    if existing.None? {
      UpsertOne(db.tickers, ticker, KeyOf, registerTx);
      var registered := db.UpsertTickers([ticker], registerTx);
      if registered.Err? {
        return Err(Store(registered.error)), requests;
      }
    }
    requests := [Single(ticker.symbol, ticker.exchange, interval, replay)];
    if response.None? {
      return Err(ProviderFailed), requests;
    }
    var stored := db.UpsertPrices(ticker.symbol, ticker.exchange, interval, response.value.data, tx);
    r := FinanceUtils.StoreResult(stored);
  }

  /** The position of the first ticker the batch check rejects, or the
      length when it accepts them all. */
  function FirstInvalid(tickers: seq<Ticker>): (i: nat)
    ensures i <= |tickers|
    ensures forall j | 0 <= j < i :: ValidTicker(tickers[j])
    ensures i < |tickers| ==> !ValidTicker(tickers[i])
    decreases |tickers|
  {
    if tickers == [] then 0
    else if !ValidTicker(tickers[0]) then 0
    else
      var i := FirstInvalid(tickers[1..]);
      assert forall j | 1 <= j < i + 1 :: tickers[j] == tickers[1..][j - 1];
      1 + i
  }

  /** Whether one batch call succeeds: the list is non-empty and valid, the
      tickers' upsert commits, the provider answers, and every series of
      the answer has its ticker refreshed and its bars stored. */
  predicate BatchSucceeds(tickers: seq<Ticker>, tickerTx: nat -> TxOutcome, response: Option<seq<ChartData>>,
                          refresh: nat -> TxOutcome, txs: nat -> nat -> TxOutcome)
  {
    && tickers != []
    && (forall j | 0 <= j < |tickers| :: ValidTicker(tickers[j]))
    && UpsertOutcome(|tickers|, tickerTx).Ok?
    && response.Some?
    && forall j | 0 <= j < |response.value| :: SeriesWritten(response.value[j], RefreshAt(Some(refresh), j), txs(j))
  }

  /** What one batch call asks the provider for: the whole list in one
      batch request, once the list has passed validation and its upsert
      has committed; nothing otherwise. */
  function BatchAsked(tickers: seq<Ticker>, tickerTx: nat -> TxOutcome, interval: Interval): (q: seq<Request>)
    ensures |q| <= 1
    ensures q != [] <==>
      && tickers != []
      && (forall j | 0 <= j < |tickers| :: ValidTicker(tickers[j]))
      && UpsertOutcome(|tickers|, tickerTx).Ok?
    ensures q != [] ==> q == [Batch(tickers, interval)]
  {
    if tickers != [] && FirstInvalid(tickers) == |tickers| && UpsertOutcome(|tickers|, tickerTx).Ok?
    then [Batch(tickers, interval)] else []
  }

  /** The series of an answer, each first refreshing its ticker row and then
      storing its bars, until a write fails. */
  method WriteSeries(db: Database, series: seq<ChartData>, interval: Interval,
                     refresh: nat -> TxOutcome, txs: nat -> nat -> TxOutcome)
    returns (r: Result<(), FetchError>)
    requires db.Valid()
    modifies db
    ensures db.Valid()
    ensures (db.State(), r.Ok?) == StoreAll(old(db.State()), series, interval, Some(refresh), txs, 0)
    ensures r.Err? ==> r.error.Store?
  {
    var i := 0;
    while i < |series|
      invariant 0 <= i <= |series|
      invariant db.Valid()
      invariant StoreAll(old(db.State()), series, interval, Some(refresh), txs, 0)
                == StoreAll(db.State(), series, interval, Some(refresh), txs, i)
    {
      var s := series[i];
      ghost var before := db.State();
      var refreshed := db.UpdateTicker(s.symbolInfo, refresh(i));
      if refreshed.Err? {
        assert StoreSeries(before, s, interval, RefreshAt(Some(refresh), i), txs(i)) == (before, false);
        StoreAllAdvance(before, before, false, series, interval, Some(refresh), txs, i);
        return Err(Store(refreshed.error));
      }
      ghost var tickers' := db.tickers;
      var stored := db.UpsertPrices(s.symbolInfo.symbol, s.symbolInfo.exchange, interval, s.data, txs(i));
      StoreSeriesRefreshed(before, s, interval, refresh(i), txs(i), tickers', db.ohlcv, stored.Ok?);
      StoreAllAdvance(before, db.State(), stored.Ok?, series, interval, Some(refresh), txs, i);
      if stored.Err? {
        return Err(Store(stored.error));
      }
      i := i + 1;
    }
    return Ok(());
  }

  /** An answer is stored completely exactly when writing its series in
      turn gets to the end. */
  lemma SeriesSucceedIff(t: Tables, series: seq<ChartData>, interval: Interval,
                         refresh: nat -> TxOutcome, txs: nat -> nat -> TxOutcome)
    ensures StoreAll(t, series, interval, Some(refresh), txs, 0).1 <==>
      forall j | 0 <= j < |series| :: SeriesWritten(series[j], RefreshAt(Some(refresh), j), txs(j))
  {
    StoreAllOk(t, series, interval, Some(refresh), txs, 0);
  }

  /** `fetch_prices_batch`: rejects an empty list and any ticker with an
      empty symbol or exchange before touching anything, upserts the whole
      list, asks the provider for all of it in one batch, and writes the
      answer's series; the first failure is the result. */
  method FetchPricesBatch(db: Database, tickers: seq<Ticker>, interval: Interval, tickerTx: nat -> TxOutcome,
                          response: Option<seq<ChartData>>, refresh: nat -> TxOutcome, txs: nat -> nat -> TxOutcome)
    returns (r: Result<(), FetchError>, requests: seq<Request>)
    requires db.Valid()
    modifies db
    ensures db.Valid()
    ensures r.Ok? <==> BatchSucceeds(tickers, tickerTx, response, refresh, txs)
    ensures requests == BatchAsked(tickers, tickerTx, interval)
    ensures tickers == [] ==> r == Err(NoTickersProvided) && requests == [] && db.State() == old(db.State())
    ensures tickers != [] && FirstInvalid(tickers) < |tickers| ==>
      r == Err(InvalidTicker(tickers[FirstInvalid(tickers)])) && requests == [] && db.State() == old(db.State())
    ensures tickers != [] && FirstInvalid(tickers) == |tickers| ==>
      var registered := UpsertOutcome(|tickers|, tickerTx);
      && (registered.Err? ==>
            && r == Err(Store(registered.error)) && requests == []
            && db.tickers == Upsert(old(db.tickers), tickers[..StoredRows(|tickers|, tickerTx)], KeyOf)
            && db.ohlcv == old(db.ohlcv))
      && (registered.Ok? ==>
            var t := Tables(Upsert(old(db.tickers), tickers, KeyOf), old(db.ohlcv));
            && requests == [Batch(tickers, interval)]
            && (response.None? ==> r == Err(ProviderFailed) && db.State() == t)
            && (response.Some? ==> db.State() == StoreAll(t, response.value, interval, Some(refresh), txs, 0).0))
  {
    requests := [];
    if |tickers| == 0 {
      return Err(NoTickersProvided), requests;
    }
    var i := 0;
    while i < |tickers|
      invariant 0 <= i <= |tickers|
      invariant forall j | 0 <= j < i :: ValidTicker(tickers[j])
    {
      if tickers[i].symbol == "" || tickers[i].exchange == "" {
        assert FirstInvalid(tickers) == i;
        return Err(InvalidTicker(tickers[i])), requests;
      }
      i := i + 1;
    }
    var registered := db.UpsertTickers(tickers, tickerTx);
    if registered.Err? {
      return Err(Store(registered.error)), requests;
    }
    assert tickers[..StoredRows(|tickers|, tickerTx)] == tickers;
    requests := [Batch(tickers, interval)];
    if response.None? {
      return Err(ProviderFailed), requests;
    }
    SeriesSucceedIff(db.State(), response.value, interval, refresh, txs);
    r := WriteSeries(db, response.value, interval, refresh, txs);
  }

  /** The attempt outcomes of `fetch_prices_all`: attempt a of chunk c
      succeeds when the batch call over that chunk does. */
  function BatchOutcomes(batches: seq<seq<Ticker>>, tickerTxs: (nat, nat) -> nat -> TxOutcome,
                         responses: (nat, nat) -> Option<seq<ChartData>>,
                         refreshes: (nat, nat) -> nat -> TxOutcome,
                         txs: (nat, nat) -> nat -> nat -> TxOutcome): (nat, nat) -> bool
  {
    (c: nat, a: nat) =>
      c < |batches| && BatchSucceeds(batches[c], tickerTxs(c, a), responses(c, a), refreshes(c, a), txs(c, a))
  }

  /** One attempt of `fetch_prices_all` at a chunk: the batch call, seen as
      whether it succeeds and what it asks the provider for. */
  method AttemptBatch(db: Database, tickers: seq<Ticker>, interval: Interval, tickerTx: nat -> TxOutcome,
                      response: Option<seq<ChartData>>, refresh: nat -> TxOutcome, txs: nat -> nat -> TxOutcome)
    returns (succeeded: bool, requests: seq<Request>)
    requires db.Valid()
    modifies db
    ensures db.Valid()
    ensures succeeded == BatchSucceeds(tickers, tickerTx, response, refresh, txs)
    ensures requests == BatchAsked(tickers, tickerTx, interval)
  {
    var r;
    r, requests := FetchPricesBatch(db, tickers, interval, tickerTx, response, refresh, txs);
    succeeded := r.Ok?;
  }

  /** What attempt a of chunk c of `fetch_prices_all` asks the provider for. */
  function BatchRequests(batches: seq<seq<Ticker>>, tickerTxs: (nat, nat) -> nat -> TxOutcome,
                         interval: Interval): (nat, nat) -> seq<Request>
  {
    (c: nat, a: nat) => if c < |batches| then BatchAsked(batches[c], tickerTxs(c, a), interval) else []
  }

  /** The requests of `fetch_prices_all`: at most one per attempt, each
      asking for a whole chunk, and every chunk that succeeds asked for. */
  lemma BatchRequestsCover(batches: seq<seq<Ticker>>, interval: Interval, maxRetries: nat,
                           tickerTxs: (nat, nat) -> nat -> TxOutcome,
                           responses: (nat, nat) -> Option<seq<ChartData>>,
                           refreshes: (nat, nat) -> nat -> TxOutcome,
                           txs: (nat, nat) -> nat -> nat -> TxOutcome)
    ensures var ok := BatchOutcomes(batches, tickerTxs, responses, refreshes, txs);
      var requests := RunLog(|batches|, maxRetries, ok, BatchRequests(batches, tickerTxs, interval));
      && |requests| <= TotalTries(|batches|, maxRetries, ok)
      && (forall q | q in requests :: exists c | 0 <= c < |batches| :: q == Batch(batches[c], interval))
      && (forall c | 0 <= c < |batches| && Succeeds(c, maxRetries, ok) :: Batch(batches[c], interval) in requests)
  {
    var ok := BatchOutcomes(batches, tickerTxs, responses, refreshes, txs);
    var log := BatchRequests(batches, tickerTxs, interval);
    forall c, a | 0 <= c < |batches| ensures |log(c, a)| <= 1 {
      BatchRequestAt(batches, tickerTxs, interval, c, a);
    }
    RunLogLength(|batches|, maxRetries, ok, log);
    BatchRequestsAsked(batches, interval, maxRetries, ok, tickerTxs);
    forall c | 0 <= c < |batches| && Succeeds(c, maxRetries, ok)
      ensures Batch(batches[c], interval) in RunLog(|batches|, maxRetries, ok, log)
    {
      BatchSucceededAsked(batches, interval, maxRetries, tickerTxs, responses, refreshes, txs, c);
    }
  }

  lemma BatchRequestsAsked(batches: seq<seq<Ticker>>, interval: Interval, maxRetries: nat, ok: (nat, nat) -> bool,
                           tickerTxs: (nat, nat) -> nat -> TxOutcome)
    ensures forall q | q in RunLog(|batches|, maxRetries, ok, BatchRequests(batches, tickerTxs, interval)) ::
      exists c | 0 <= c < |batches| :: q == Batch(batches[c], interval)
  {
    var log := BatchRequests(batches, tickerTxs, interval);
    RunLogMembers(|batches|, maxRetries, ok, log);
    forall q | q in RunLog(|batches|, maxRetries, ok, log)
      ensures exists c | 0 <= c < |batches| :: q == Batch(batches[c], interval)
    {
      var c, a :| 0 <= c < |batches| && 0 <= a < Tries(c, 0, maxRetries, ok) && q in log(c, a);
      BatchRequestAt(batches, tickerTxs, interval, c, a);
    }
  }

  lemma BatchSucceededAsked(batches: seq<seq<Ticker>>, interval: Interval, maxRetries: nat,
                            tickerTxs: (nat, nat) -> nat -> TxOutcome,
                            responses: (nat, nat) -> Option<seq<ChartData>>,
                            refreshes: (nat, nat) -> nat -> TxOutcome,
                            txs: (nat, nat) -> nat -> nat -> TxOutcome, c: nat)
    requires c < |batches| && Succeeds(c, maxRetries, BatchOutcomes(batches, tickerTxs, responses, refreshes, txs))
    ensures Batch(batches[c], interval)
      in RunLog(|batches|, maxRetries, BatchOutcomes(batches, tickerTxs, responses, refreshes, txs),
                BatchRequests(batches, tickerTxs, interval))
  {
    var ok := BatchOutcomes(batches, tickerTxs, responses, refreshes, txs);
    var log := BatchRequests(batches, tickerTxs, interval);
    var a := Tries(c, 0, maxRetries, ok) - 1;
    BatchOutcomeAt(batches, tickerTxs, responses, refreshes, txs, c, a);
    BatchRequestAt(batches, tickerTxs, interval, c, a);
    assert Batch(batches[c], interval) in log(c, a);
    RunLogMembers(|batches|, maxRetries, ok, log);
  }

  /** Attempt a of chunk c succeeds when the batch call over that chunk does. */
  lemma BatchOutcomeAt(batches: seq<seq<Ticker>>, tickerTxs: (nat, nat) -> nat -> TxOutcome,
                       responses: (nat, nat) -> Option<seq<ChartData>>,
                       refreshes: (nat, nat) -> nat -> TxOutcome,
                       txs: (nat, nat) -> nat -> nat -> TxOutcome, c: nat, a: nat)
    requires c < |batches|
    ensures BatchOutcomes(batches, tickerTxs, responses, refreshes, txs)(c, a)
      == BatchSucceeds(batches[c], tickerTxs(c, a), responses(c, a), refreshes(c, a), txs(c, a))
  {
  }

  /** Attempt a of chunk c asks for what the batch call over that chunk does. */
  lemma BatchRequestAt(batches: seq<seq<Ticker>>, tickerTxs: (nat, nat) -> nat -> TxOutcome,
                       interval: Interval, c: nat, a: nat)
    requires c < |batches|
    ensures BatchRequests(batches, tickerTxs, interval)(c, a) == BatchAsked(batches[c], tickerTxs(c, a), interval)
  {
  }

  /** The attempts at chunk c of `fetch_prices_all`, until one succeeds or
      max_retries + 1 have failed. */
  method RetryBatch(db: Database, batches: seq<seq<Ticker>>, c: nat, interval: Interval, maxRetries: nat,
                    tickerTxs: (nat, nat) -> nat -> TxOutcome,
                    responses: (nat, nat) -> Option<seq<ChartData>>,
                    refreshes: (nat, nat) -> nat -> TxOutcome,
                    txs: (nat, nat) -> nat -> nat -> TxOutcome, ghost ok: (nat, nat) -> bool)
    returns (succeeded: bool, events: seq<Event>, requests: seq<Request>)
    requires db.Valid() && c < |batches|
    requires forall a {:trigger responses(c, a)} :: ok(c, a) == BatchSucceeds(batches[c], tickerTxs(c, a), responses(c, a), refreshes(c, a), txs(c, a))
    modifies db
    ensures db.Valid()
    ensures events == ChunkEvents(c, 0, maxRetries, ok)
    ensures succeeded == Succeeds(c, maxRetries, ok)
    ensures requests == AttemptLog(c, Tries(c, 0, maxRetries, ok), BatchRequests(batches, tickerTxs, interval))
  {
    ghost var log := BatchRequests(batches, tickerTxs, interval);
    var attempts := 0;
    events, requests := [], [];
    while true
      invariant attempts <= maxRetries
      invariant db.Valid()
      invariant Tries(c, 0, maxRetries, ok) == attempts + Tries(c, attempts, maxRetries, ok)
      invariant ChunkEvents(c, 0, maxRetries, ok) == events + ChunkEvents(c, attempts, maxRetries, ok)
      invariant requests == AttemptLog(c, attempts, log)
      decreases maxRetries - attempts
    {
      var done, asked := AttemptBatch(db, batches[c], interval, tickerTxs(c, attempts), responses(c, attempts),
                                      refreshes(c, attempts), txs(c, attempts));
      BatchRequestAt(batches, tickerTxs, interval, c, attempts);
      RetryStep(c, attempts, maxRetries, ok, log, events, requests, asked);
      requests := requests + asked;
      if done || attempts == maxRetries {
        events := events + [Attempt(c, attempts + 1)];
        return done, events, requests;
      }
      events := events + [Attempt(c, attempts + 1), Backoff(Pow2(attempts + 1))];
      attempts := attempts + 1;
    }
  }

  /** The chunk loop of `fetch_prices_all`: every chunk in turn, with its
      attempts and the pause after it, counting successes and failures. */
  method RunBatches(db: Database, batches: seq<seq<Ticker>>, interval: Interval, maxRetries: nat,
                    tickerTxs: (nat, nat) -> nat -> TxOutcome,
                    responses: (nat, nat) -> Option<seq<ChartData>>,
                    refreshes: (nat, nat) -> nat -> TxOutcome,
                    txs: (nat, nat) -> nat -> nat -> TxOutcome)
    returns (successfulChunks: nat, failedChunks: nat, trace: seq<Event>, requests: seq<Request>)
    requires db.Valid()
    modifies db
    ensures db.Valid()
    ensures LoggedSoFar(|batches|, maxRetries, BatchOutcomes(batches, tickerTxs, responses, refreshes, txs),
                        BatchRequests(batches, tickerTxs, interval), trace, successfulChunks, failedChunks, requests)
  {
    ghost var ok := BatchOutcomes(batches, tickerTxs, responses, refreshes, txs);
    ghost var log := BatchRequests(batches, tickerTxs, interval);
    successfulChunks, failedChunks := 0, 0;
    trace, requests := [], [];
    var c := 0;
    while c < |batches|
      invariant 0 <= c <= |batches|
      invariant db.Valid()
      invariant LoggedSoFar(c, maxRetries, ok, log, trace, successfulChunks, failedChunks, requests)
    {
      var succeeded, events, asked := RetryBatch(db, batches, c, interval, maxRetries, tickerTxs, responses, refreshes, txs, ok);
      LoggedStep(c, maxRetries, ok, log, trace, successfulChunks, failedChunks, requests, events, succeeded, asked);
      trace := trace + events + [Pause(CHUNK_PAUSE_MS)];
      requests := requests + asked;
      if succeeded {
        successfulChunks := successfulChunks + 1;
      } else {
        failedChunks := failedChunks + 1;
      }
      c := c + 1;
    }
  }

  /** `fetch_prices_all`: the stored tickers, in symbol order, cut into
      ceil(n / chunk_size) chunks, each fetched with `fetch_prices_batch`
      and retried as Retry describes; an error exactly when some chunk
      failed. The universe is returned because the order of tickers with
      equal symbols is the store's choice. */
  method FetchPricesAll(db: Database, interval: Interval, chunkSize: nat, maxRetries: nat,
                        tickerTxs: (nat, nat) -> nat -> TxOutcome,
                        responses: (nat, nat) -> Option<seq<ChartData>>,
                        refreshes: (nat, nat) -> nat -> TxOutcome,
                        txs: (nat, nat) -> nat -> nat -> TxOutcome)
    returns (r: Result<(), FetchError>, universe: seq<Ticker>, trace: seq<Event>, requests: seq<Request>)
    requires db.Valid() && (db.tickers == map[] || chunkSize > 0)
    modifies db
    ensures db.Valid()
    ensures SortedBySymbol(universe) && |universe| == |old(db.tickers)|
    ensures forall x :: x in universe <==> Holds(old(db.tickers), x)
    ensures universe == [] ==> r == Ok(()) && trace == [] && requests == [] && db.State() == old(db.State())
    ensures universe != [] ==>
      var total, batches := DivCeil(|universe|, chunkSize), Chunks(universe, chunkSize);
      var ok := BatchOutcomes(batches, tickerTxs, responses, refreshes, txs);
      && trace == RunEvents(total, maxRetries, ok)
      && requests == RunLog(total, maxRetries, ok, BatchRequests(batches, tickerTxs, interval))
      && r == FinanceUtils.ChunkedResult(total, Successes(total, maxRetries, ok))
  {
    universe := db.GetAllTickers();
    if |universe| == 0 {
      return Ok(()), universe, [], [];
    }
    var totalChunks := DivCeil(|universe|, chunkSize);
    var batches := Chunks(universe, chunkSize);
    ChunkCount(universe, chunkSize);
    var successfulChunks, failedChunks;
    successfulChunks, failedChunks, trace, requests := RunBatches(db, batches, interval, maxRetries, tickerTxs, responses, refreshes, txs);
    FinanceUtils.ChunkedRunResult(totalChunks, maxRetries, BatchOutcomes(batches, tickerTxs, responses, refreshes, txs),
                                  trace, successfulChunks, failedChunks);
    if failedChunks > 0 {
      return Err(ChunksFailed(failedChunks)), universe, trace, requests;
    }
    return Ok(()), universe, trace, requests;
  }

  /** One ticker's entry in the intraday results: the ticker and how its
      fetch ended. */
  datatype Fetched = Fetched(ticker: Ticker, result: Result<(), FetchError>)

  /** A progress line: results processed so far, and the successful ones among them. */
  datatype Progress = Progress(processed: nat, successful: nat)

  /** The warnings that close an intraday run with failures. */
  datatype Warning =
    | FailedCount(count: nat)     // "Failed n tickers:"
    | FailureLine(text: string)   // one failure, indented
    | MoreFailures(count: nat)    // "... and n more"

  /** What the intraday driver counts and logs. */
  datatype Summary = Summary(processed: nat, successful: nat, failures: seq<string>,
                             progress: seq<Progress>, report: seq<Warning>)

  /** A progress line every 5% of the tickers: a twentieth of the total,
      rounded down, and at least 1. */
  function ProgressInterval(total: nat): (p: nat)
    ensures p >= 1
    ensures total >= 20 ==> p * 20 <= total < (p + 1) * 20
    ensures total < 20 ==> p == 1
  {
    if total / 20 >= 1 then total / 20 else 1
  }

  /** The failure entry of a ticker: "symbol:exchange - error". */
  function FailureText(t: Ticker, e: FetchError): (s: string)
    ensures |s| > |t.symbol| + 1 + |t.exchange| + 3
    ensures s[..|t.symbol|] == t.symbol && s[|t.symbol|] == ':'
    ensures s[|t.symbol| + 1..|t.symbol| + 1 + |t.exchange|] == t.exchange
    ensures s[|t.symbol| + 1 + |t.exchange|..|t.symbol| + 4 + |t.exchange|] == " - "
    ensures s[|t.symbol| + 4 + |t.exchange|..] == ErrorText(e)
  {
    t.symbol + ":" + t.exchange + " - " + ErrorText(e)
  }

  /** The results that succeeded. */
  function SuccessCount(results: seq<Fetched>): (n: nat)
    ensures n <= |results|
  {
    if results == [] then 0
    else SuccessCount(results[..|results| - 1]) + (if results[|results| - 1].result.Ok? then 1 else 0)
  }

  /** The failure entries, in result order. */
  function FailureLines(results: seq<Fetched>): seq<string>
  {
    if results == [] then []
    else
      var last := results[|results| - 1];
      FailureLines(results[..|results| - 1]) + (if last.result.Err? then [FailureText(last.ticker, last.result.error)] else [])
  }

  /** The progress lines: after a success that brings the processed count
      to a multiple of the interval, or to the total. */
  function ProgressLog(results: seq<Fetched>, interval: nat, total: nat): seq<Progress>
    requires interval > 0
  {
    if results == [] then []
    else
      var k := |results|;
      ProgressLog(results[..k - 1], interval, total)
        + (if results[k - 1].result.Ok? && (k % interval == 0 || k == total) then [Progress(k, SuccessCount(results))] else [])
  }

  /** Every result is a success or a failure entry. */
  lemma {:induction false} TallyTotal(results: seq<Fetched>)
    ensures SuccessCount(results) + |FailureLines(results)| == |results|
  {
    if results != [] {
      TallyTotal(results[..|results| - 1]);
    }
  }

  /** The progress lines are exactly the successes at a multiple of the
      interval or at the total, each with the successes up to it. */
  lemma ProgressLogged(results: seq<Fetched>, interval: nat, total: nat)
    requires interval > 0
    ensures forall p | p in ProgressLog(results, interval, total) ::
      && 1 <= p.processed <= |results|
      && results[p.processed - 1].result.Ok?
      && (p.processed % interval == 0 || p.processed == total)
      && p.successful == SuccessCount(results[..p.processed])
    ensures forall k | 1 <= k <= |results| && results[k - 1].result.Ok? && (k % interval == 0 || k == total) ::
      Progress(k, SuccessCount(results[..k])) in ProgressLog(results, interval, total)
  {
    ProgressSound(results, interval, total);
    ProgressComplete(results, interval, total);
  }

  lemma {:induction false} ProgressSound(results: seq<Fetched>, interval: nat, total: nat)
    requires interval > 0
    ensures forall p | p in ProgressLog(results, interval, total) ::
      && 1 <= p.processed <= |results|
      && results[p.processed - 1].result.Ok?
      && (p.processed % interval == 0 || p.processed == total)
      && p.successful == SuccessCount(results[..p.processed])
  {
    if results != [] {
      var n := |results|;
      var front := results[..n - 1];
      ProgressSound(front, interval, total);
      assert results[..n] == results;
      forall p | p in ProgressLog(front, interval, total)
        ensures results[p.processed - 1] == front[p.processed - 1] && results[..p.processed] == front[..p.processed]
      {
      }
    }
  }

  lemma {:induction false} ProgressComplete(results: seq<Fetched>, interval: nat, total: nat)
    requires interval > 0
    ensures forall k | 1 <= k <= |results| && results[k - 1].result.Ok? && (k % interval == 0 || k == total) ::
      Progress(k, SuccessCount(results[..k])) in ProgressLog(results, interval, total)
  {
    if results != [] {
      var n := |results|;
      var front := results[..n - 1];
      ProgressComplete(front, interval, total);
      assert results[..n] == results;
      assert forall k | 1 <= k <= n - 1 :: front[k - 1] == results[k - 1] && front[..k] == results[..k];
    }
  }

  /** The results loop: counts what was processed and what succeeded,
      collects the failure entries and logs progress. */
  method Tally(results: seq<Fetched>, total: nat, progressInterval: nat)
    returns (processed: nat, successful: nat, failures: seq<string>, progress: seq<Progress>)
    requires progressInterval > 0
    ensures processed == |results|
    ensures successful == SuccessCount(results) && failures == FailureLines(results)
    ensures progress == ProgressLog(results, progressInterval, total)
    ensures successful + |failures| == processed
  {
    processed, successful, failures, progress := 0, 0, [], [];
    while processed < |results|
      invariant processed <= |results|
      invariant successful == SuccessCount(results[..processed])
      invariant failures == FailureLines(results[..processed])
      invariant progress == ProgressLog(results[..processed], progressInterval, total)
    {
      var entry := results[processed];
      assert results[..processed + 1][..processed] == results[..processed];
      processed := processed + 1;
      if entry.result.Ok? {
        successful := successful + 1;
        if processed % progressInterval == 0 || processed == total {
          progress := progress + [Progress(processed, successful)];
        }
      } else {
        failures := failures + [FailureText(entry.ticker, entry.result.error)];
      }
    }
    assert results[..processed] == results;
    TallyTotal(results);
  }

  /** The closing warnings: nothing without failures; otherwise the count,
      the first Min(10, f) entries in order, and "... and f - 10 more" only
      when there are more than 10. */
  predicate Reports(failures: seq<string>, lines: seq<Warning>)
  {
    var f := |failures|;
    && (f == 0 <==> lines == [])
    && (f > 0 ==>
          && |lines| == 1 + Min(10, f) + (if f > 10 then 1 else 0)
          && lines[0] == FailedCount(f)
          && (forall i | 0 <= i < Min(10, f) :: lines[i + 1] == FailureLine(failures[i]))
          && (f > 10 ==> lines[|lines| - 1] == MoreFailures(f - 10)))
    && (forall i | 0 <= i < |lines| :: lines[i].MoreFailures? ==> f > 10)
  }

  /** Reports leaves no freedom: the closing warnings are determined by the
      failure entries. */
  lemma ReportsDetermined(failures: seq<string>, a: seq<Warning>, b: seq<Warning>)
    requires Reports(failures, a) && Reports(failures, b)
    ensures a == b
  {
    var f := |failures|;
    if f > 0 {
      forall i | 0 <= i < |a| ensures a[i] == b[i] {
        if 1 <= i <= Min(10, f) {
          assert a[(i - 1) + 1] == FailureLine(failures[i - 1]);
          assert b[(i - 1) + 1] == FailureLine(failures[i - 1]);
        }
      }
    }
  }

  /** The closing warnings of the intraday driver. */
  method ReportFailures(failures: seq<string>) returns (lines: seq<Warning>)
    ensures Reports(failures, lines)
  {
    lines := [];
    if |failures| > 0 {
      lines := [FailedCount(|failures|)];
      var i := 0;
      while i < |failures| && i < 10
        invariant 0 <= i <= Min(10, |failures|)
        invariant |lines| == 1 + i && lines[0] == FailedCount(|failures|)
        invariant forall j | 0 <= j < i :: lines[j + 1] == FailureLine(failures[j])
        invariant forall j | 0 <= j < |lines| :: !lines[j].MoreFailures?
      {
        lines := lines + [FailureLine(failures[i])];
        i := i + 1;
      }
      if |failures| > 10 {
        lines := lines + [MoreFailures(|failures| - 10)];
      }
    }
  }

  /** A completion order of n concurrent fetches: every index once. */
  predicate IsOrder(order: seq<nat>, n: nat)
  {
    && |order| == n
    && (forall k | 0 <= k < n :: order[k] < n)
    && (forall k, l | 0 <= k < l < n :: order[k] != order[l])
  }

  /** The result of `fetch_prices` for a ticker the store already knows. */
  function KnownOutcome(t: Ticker, response: Option<ChartData>, tx: nat -> TxOutcome): (r: Result<(), FetchError>)
    ensures r.Ok? <==> ValidTicker(t) && response.Some? && UpsertOutcome(|response.value.data|, tx).Ok?
  {
    if !ValidTicker(t) then Err(EmptySymbolOrExchange)
    else if response.None? then Err(ProviderFailed)
    else PriceResult(response.value.data, tx)
  }

  /** The bars table after `fetch_prices` of a ticker the store knows: the
      committed prefix of its answer upserted under the ticker's keys. */
  function KnownBars(ohlcv: map<CandleKey, Candle>, t: Ticker, interval: Interval,
                     response: Option<ChartData>, tx: nat -> TxOutcome): map<CandleKey, Candle>
  {
    if !ValidTicker(t) || response.None? then ohlcv
    else
      var data := response.value.data;
      Upsert(ohlcv, data[..StoredRows(|data|, tx)], CandleKeyer(t.symbol, t.exchange, interval))
  }

  /** The bars table after the fetches of tickers[order[0]], tickers[order[1]],
      ... in turn, every one of them known to the store. */
  function KnownRunBars(ohlcv: map<CandleKey, Candle>, tickers: seq<Ticker>, interval: Interval, order: seq<nat>,
                        responses: nat -> Option<ChartData>, txs: nat -> nat -> TxOutcome): map<CandleKey, Candle>
  {
    if order == [] then ohlcv
    else
      var i := order[|order| - 1];
      var before := KnownRunBars(ohlcv, tickers, interval, order[..|order| - 1], responses, txs);
      if i < |tickers| then KnownBars(before, tickers[i], interval, responses(i), txs(i)) else before
  }

  /** One fetch more: the run's table is the previous one with that fetch's bars. */
  lemma KnownRunStep(ohlcv: map<CandleKey, Candle>, tickers: seq<Ticker>, interval: Interval, order: seq<nat>, k: nat,
                     responses: nat -> Option<ChartData>, txs: nat -> nat -> TxOutcome)
    requires k < |order| && order[k] < |tickers|
    ensures KnownRunBars(ohlcv, tickers, interval, order[..k + 1], responses, txs)
         == KnownBars(KnownRunBars(ohlcv, tickers, interval, order[..k], responses, txs),
                      tickers[order[k]], interval, responses(order[k]), txs(order[k]))
  {
    assert order[..k + 1][..k] == order[..k];
  }

  /** A run of fetches leaves alone every bar that belongs to none of the
      fetched tickers at this interval. */
  lemma {:induction false} KnownRunBarsOthers(ohlcv: map<CandleKey, Candle>, tickers: seq<Ticker>, interval: Interval,
                                              order: seq<nat>, responses: nat -> Option<ChartData>,
                                              txs: nat -> nat -> TxOutcome, k: CandleKey)
    requires k.interval != interval
          || forall j | 0 <= j < |order| && order[j] < |tickers| ::
               TickerKey(k.symbol, k.exchange) != KeyOf(tickers[order[j]])
    ensures k in KnownRunBars(ohlcv, tickers, interval, order, responses, txs) <==> k in ohlcv
    ensures k in ohlcv ==> KnownRunBars(ohlcv, tickers, interval, order, responses, txs)[k] == ohlcv[k]
  {
    if order != [] {
      var n := |order|;
      var i := order[n - 1];
      var front := order[..n - 1];
      assert forall j | 0 <= j < n - 1 :: front[j] == order[j];
      KnownRunBarsOthers(ohlcv, tickers, interval, front, responses, txs, k);
      var before := KnownRunBars(ohlcv, tickers, interval, front, responses, txs);
      if i < |tickers| && ValidTicker(tickers[i]) && responses(i).Some? {
        var t := tickers[i];
        var data := responses(i).value.data;
        var rows := data[..StoredRows(|data|, txs(i))];
        var key := CandleKeyer(t.symbol, t.exchange, interval);
        forall j | 0 <= j < |rows| ensures key(rows[j]) != k {
        }
        UpsertOthersUnchanged(before, rows, key, k);
      }
    }
  }

  /** One fetch of the intraday driver: `fetch_prices` of one ticker, seen
      as its entry in the results, what it asks for, and its effect when
      the store knows the ticker. */
  method FetchOne(db: Database, t: Ticker, interval: Interval, replay: bool,
                  response: Option<ChartData>, registerTx: nat -> TxOutcome, tx: nat -> TxOutcome)
    returns (entry: Fetched, asked: seq<Request>)
    requires db.Valid()
    modifies db
    ensures db.Valid()
    ensures entry.ticker == t
    ensures forall q | q in asked :: q.Single? && q.interval == interval && q.replay == replay
    ensures KeyOf(t) in old(db.tickers) ==>
      && entry.result == KnownOutcome(t, response, tx)
      && db.tickers == old(db.tickers)
      && db.ohlcv == KnownBars(old(db.ohlcv), t, interval, response, tx)
  {
    var res;
    res, asked := FetchPrices(db, t, interval, replay, response, registerTx, tx);
    entry := Fetched(t, res);
  }

  /** The intraday fetches of known tickers after the first k of the order:
      the tickers table as it was, the bars as KnownRunBars gives them, and
      each entry the outcome of its own ticker's fetch. */
  ghost predicate KnownSoFar(t0: Tables, t: Tables, tickers: seq<Ticker>, interval: Interval, order: seq<nat>, k: nat,
                             responses: nat -> Option<ChartData>, txs: nat -> nat -> TxOutcome, results: seq<Fetched>)
  {
    && k <= |order| && |results| == k
    && t.tickers == t0.tickers
    && t.ohlcv == KnownRunBars(t0.ohlcv, tickers, interval, order[..k], responses, txs)
    && forall j | 0 <= j < k && order[j] < |tickers| ::
         results[j].result == KnownOutcome(tickers[order[j]], responses(order[j]), txs(order[j]))
  }

  lemma KnownSoFarStep(t0: Tables, t: Tables, t': Tables, tickers: seq<Ticker>, interval: Interval, order: seq<nat>, k: nat,
                       responses: nat -> Option<ChartData>, txs: nat -> nat -> TxOutcome,
                       results: seq<Fetched>, entry: Fetched)
    requires KnownSoFar(t0, t, tickers, interval, order, k, responses, txs, results)
    requires k < |order| && order[k] < |tickers|
    requires var i := order[k];
      && t'.tickers == t.tickers
      && t'.ohlcv == KnownBars(t.ohlcv, tickers[i], interval, responses(i), txs(i))
      && entry.result == KnownOutcome(tickers[i], responses(i), txs(i))
    ensures KnownSoFar(t0, t', tickers, interval, order, k + 1, responses, txs, results + [entry])
  {
    KnownRunStep(t0.ohlcv, tickers, interval, order, k, responses, txs);
  }

  /** The concurrent fetches of the intraday driver, run one at a time in
      the order they complete: the k-th result is that of ticker order[k]. */
  method FetchEach(db: Database, tickers: seq<Ticker>, interval: Interval, replay: bool, order: seq<nat>,
                   responses: nat -> Option<ChartData>, registerTxs: nat -> nat -> TxOutcome,
                   txs: nat -> nat -> TxOutcome)
    returns (results: seq<Fetched>, requests: seq<Request>)
    requires db.Valid()
    requires forall k | 0 <= k < |order| :: order[k] < |tickers|
    modifies db
    ensures db.Valid()
    ensures |results| == |order|
    ensures forall k | 0 <= k < |order| :: results[k].ticker == tickers[order[k]]
    ensures forall q | q in requests :: q.Single? && q.interval == interval && q.replay == replay
    ensures (forall t | t in tickers :: KeyOf(t) in old(db.tickers)) ==>
      forall k | 0 <= k < |order| ::
        results[k].result == KnownOutcome(tickers[order[k]], responses(order[k]), txs(order[k]))
    ensures (forall t | t in tickers :: KeyOf(t) in old(db.tickers)) ==>
      && db.tickers == old(db.tickers)
      && db.ohlcv == KnownRunBars(old(db.ohlcv), tickers, interval, order, responses, txs)
  {
    ghost var known := forall t | t in tickers :: KeyOf(t) in old(db.tickers);
    results, requests := [], [];
    var k := 0;
    while k < |order|
      invariant 0 <= k <= |order| && |results| == k
      invariant db.Valid()
      invariant forall j | 0 <= j < k :: results[j].ticker == tickers[order[j]]
      invariant forall q | q in requests :: q.Single? && q.interval == interval && q.replay == replay
      invariant known ==> KnownSoFar(old(db.State()), db.State(), tickers, interval, order, k, responses, txs, results)
    {
      var idx := order[k];
      var t := tickers[idx];
      ghost var before := db.State();
      assert known ==> t in tickers;
      var entry, asked := FetchOne(db, t, interval, replay, responses(idx), registerTxs(idx), txs(idx));
      if known {
        KnownSoFarStep(old(db.State()), before, db.State(), tickers, interval, order, k, responses, txs, results, entry);
      }
      results := results + [entry];
      requests := requests + asked;
      k := k + 1;
    }
    assert order[..k] == order;
  }

  /** `fetch_intraday_prices`: optionally upserts the given tickers first
      (its failure is the only error this driver returns), fetches every
      ticker, then tallies the results and reports the failures. */
  method FetchIntradayPrices(db: Database, tickers: seq<Ticker>, interval: Interval, replay: bool,
                             updateExisting: bool, upfrontTx: nat -> TxOutcome, order: seq<nat>,
                             responses: nat -> Option<ChartData>, registerTxs: nat -> nat -> TxOutcome,
                             txs: nat -> nat -> TxOutcome)
    returns (r: Result<(), FetchError>, results: seq<Fetched>, requests: seq<Request>, summary: Summary)
    requires db.Valid() && IsOrder(order, |tickers|)
    modifies db
    ensures db.Valid()
    ensures forall q | q in requests :: q.Single? && q.interval == interval && q.replay == replay
    ensures var upfront := UpsertOutcome(|tickers|, upfrontTx);
      && (updateExisting && upfront.Err? ==>
            && r == Err(Store(upfront.error)) && results == [] && requests == []
            && db.tickers == Upsert(old(db.tickers), tickers[..StoredRows(|tickers|, upfrontTx)], KeyOf)
            && db.ohlcv == old(db.ohlcv))
      && (!(updateExisting && upfront.Err?) ==>
            && r == Ok(())
            && |results| == |tickers|
            && (forall k | 0 <= k < |tickers| :: results[k].ticker == tickers[order[k]])
            && summary.processed == |tickers|
            && summary.successful == SuccessCount(results)
            && summary.failures == FailureLines(results)
            && summary.successful + |summary.failures| == |tickers|
            && summary.progress == ProgressLog(results, ProgressInterval(|tickers|), |tickers|)
            && Reports(summary.failures, summary.report))
    ensures (updateExisting && UpsertOutcome(|tickers|, upfrontTx).Ok?)
            || (!updateExisting && forall t | t in tickers :: KeyOf(t) in old(db.tickers)) ==>
      forall k | 0 <= k < |tickers| ::
        results[k].result == KnownOutcome(tickers[order[k]], responses(order[k]), txs(order[k]))
    ensures (forall t | t in tickers :: Holds(old(db.tickers), t)) ==> db.tickers == old(db.tickers)
    ensures updateExisting && UpsertOutcome(|tickers|, upfrontTx).Ok? ==>
      db.State() == Tables(Upsert(old(db.tickers), tickers, KeyOf),
                           KnownRunBars(old(db.ohlcv), tickers, interval, order, responses, txs))
    ensures !updateExisting && (forall t | t in tickers :: KeyOf(t) in old(db.tickers)) ==>
      db.State() == Tables(old(db.tickers), KnownRunBars(old(db.ohlcv), tickers, interval, order, responses, txs))
  {
    summary := Summary(0, 0, [], [], []);
    if updateExisting {
      ghost var before := db.tickers;
      var upfront := db.UpsertTickers(tickers, upfrontTx);
      UpfrontEffect(before, tickers, upfrontTx);
      if upfront.Err? {
        return Err(Store(upfront.error)), [], [], summary;
      }
      assert tickers[..StoredRows(|tickers|, upfrontTx)] == tickers;
    }
    var total := |tickers|;
    var progressInterval := ProgressInterval(total);
    results, requests := FetchEach(db, tickers, interval, replay, order, responses, registerTxs, txs);
    var processed, successful, failures, progress := Tally(results, total, progressInterval);
    var report := ReportFailures(failures);
    summary := Summary(processed, successful, failures, progress, report);
    return Ok(()), results, requests, summary;
  }

  /** What the upfront upsert does to the tickers table: it knows every given
      ticker once it commits, and re-upserting rows the table holds changes
      nothing, whatever part of them gets stored. */
  lemma UpfrontEffect(table: map<TickerKey, Ticker>, tickers: seq<Ticker>, tx: nat -> TxOutcome)
    ensures UpsertOutcome(|tickers|, tx).Ok? ==>
      forall t | t in tickers :: KeyOf(t) in Upsert(table, tickers[..StoredRows(|tickers|, tx)], KeyOf)
    ensures (forall t | t in tickers :: Holds(table, t)) ==>
      Upsert(table, tickers[..StoredRows(|tickers|, tx)], KeyOf) == table
  {
    var stored := tickers[..StoredRows(|tickers|, tx)];
    if UpsertOutcome(|tickers|, tx).Ok? {
      assert stored == tickers;
      UpsertKeys(table, tickers, KeyOf);
      forall t | t in tickers ensures KeyOf(t) in Upsert(table, stored, KeyOf) {
        var j :| 0 <= j < |tickers| && tickers[j] == t;
      }
    }
    if forall t | t in tickers :: Holds(table, t) {
      forall j | 0 <= j < |stored| ensures KeyOf(stored[j]) in table && table[KeyOf(stored[j])] == stored[j] {
        assert stored[j] in tickers;
      }
      UpsertStored(table, stored, KeyOf);
    }
  }

  /** `fetch_intraday_prices_all`: nothing to do for an empty store;
      otherwise the intraday driver over every stored ticker, with replay
      and with the upfront upsert. That upsert writes back rows the store
      already holds, so the tickers table ends as it began. */
  method FetchIntradayPricesAll(db: Database, interval: Interval, upfrontTx: nat -> TxOutcome, order: seq<nat>,
                                responses: nat -> Option<ChartData>, registerTxs: nat -> nat -> TxOutcome,
                                txs: nat -> nat -> TxOutcome)
    returns (r: Result<(), FetchError>, universe: seq<Ticker>, results: seq<Fetched>,
             requests: seq<Request>, summary: Summary)
    requires db.Valid() && IsOrder(order, |db.tickers|)
    modifies db
    ensures db.Valid() && db.tickers == old(db.tickers)
    ensures SortedBySymbol(universe) && |universe| == |old(db.tickers)|
    ensures forall x :: x in universe <==> Holds(old(db.tickers), x)
    ensures universe == [] ==> r == Ok(()) && results == [] && requests == [] && db.ohlcv == old(db.ohlcv)
    ensures forall q | q in requests :: q.Single? && q.interval == interval && q.replay
    ensures r.Ok? <==> universe == [] || UpsertOutcome(|universe|, upfrontTx).Ok?
    ensures r.Err? ==> r == Err(Store(UpsertOutcome(|universe|, upfrontTx).error))
    ensures universe != [] && r.Ok? ==>
      && |results| == |universe|
      && (forall k | 0 <= k < |universe| ::
            && results[k].ticker == universe[order[k]]
            && results[k].result == KnownOutcome(universe[order[k]], responses(order[k]), txs(order[k])))
      && summary.successful + |summary.failures| == |universe|
      && summary.failures == FailureLines(results)
      && Reports(summary.failures, summary.report)
    ensures r.Ok? ==> db.ohlcv == KnownRunBars(old(db.ohlcv), universe, interval, order, responses, txs)
    ensures r.Err? ==> db.ohlcv == old(db.ohlcv)
  {
    universe := db.GetAllTickers();
    if |universe| == 0 {
      return Ok(()), universe, [], [], Summary(0, 0, [], [], []);
    }
    r, results, requests, summary := FetchIntradayPrices(db, universe, interval, true, true, upfrontTx, order,
                                                         responses, registerTxs, txs);
  }
}
