/** The older revision of the fetch drivers, src/finance/utils.rs. Provider
    answers and the outcomes of the store's transactions are parameters:
    `response` is what the provider answers to the request the driver
    makes, and `tx` (or `txs(i)` for the i-th series of an answer) says
    how each sub-batch transaction of a write ends. */
module FinanceUtils {
  import opened Wrappers
  import opened Models
  import opened Batches
  import opened Ordering
  import opened Upserts
  import opened Db
  import opened Provider
  import opened Series
  import opened Retry

  /** A failed store write, as the drivers report it. */
  function StoreResult(o: Result<nat, StoreError>): (r: Result<(), FetchError>)
    ensures r.Ok? <==> o.Ok?
    ensures o.Err? ==> r == Err(Store(o.error))
  {
    if o.Ok? then Ok(()) else Err(Store(o.error))
  }

  /** `fetch_prices`: validates the ticker, requires it to be in the store,
      and only then asks the provider for its bars and stores them. */
  method FetchPrices(db: Database, ticker: Ticker, interval: Interval, replay: bool,
                     response: Option<ChartData>, tx: nat -> TxOutcome)
    returns (r: Result<(), FetchError>, requests: seq<Request>)
    requires db.Valid()
    modifies db
    ensures db.Valid() && db.tickers == old(db.tickers)
    ensures ticker.symbol == "" || ticker.exchange == "" ==>
      r == Err(EmptySymbolOrExchange) && requests == [] && db.ohlcv == old(db.ohlcv)
    ensures ticker.symbol != "" && ticker.exchange != "" && KeyOf(ticker) !in old(db.tickers) ==>
      r == Err(UnknownTicker(ticker.symbol, ticker.exchange)) && requests == [] && db.ohlcv == old(db.ohlcv)
    ensures ticker.symbol != "" && ticker.exchange != "" && KeyOf(ticker) in old(db.tickers) ==>
      && requests == [Single(ticker.symbol, ticker.exchange, interval, replay)]
      && (response.None? ==> r == Err(ProviderFailed) && db.ohlcv == old(db.ohlcv))
      && (response.Some? ==>
            var data := response.value.data;
            && r == StoreResult(UpsertOutcome(|data|, tx))
            && db.ohlcv == Upsert(old(db.ohlcv), data[..StoredRows(|data|, tx)],
                                  CandleKeyer(ticker.symbol, ticker.exchange, interval)))
  {
    requests := [];
    if ticker.symbol == "" || ticker.exchange == "" {
      return Err(EmptySymbolOrExchange), requests;
    }
    var existing := db.GetTicker(ticker.symbol, ticker.exchange);
    if existing.None? {
      return Err(UnknownTicker(ticker.symbol, ticker.exchange)), requests;
    }
    requests := [Single(ticker.symbol, ticker.exchange, interval, replay)];
    if response.None? {
      return Err(ProviderFailed), requests;
    }
    var stored := db.UpsertPrices(ticker.symbol, ticker.exchange, interval, response.value.data, tx);
    r := StoreResult(stored);
  }

  /** Whether one batch answer is stored completely: the provider answered
      and every series of the answer was written completely. */
  predicate StreamSucceeds(response: Option<seq<ChartData>>, txs: nat -> nat -> TxOutcome)
  {
    response.Some? && forall j | 0 <= j < |response.value| :: SeriesWritten(response.value[j], None, txs(j))
  }

  /** An answer is stored completely exactly when writing its series in
      turn gets to the end. */
  lemma StreamSucceedsIff(t: Tables, series: seq<ChartData>, interval: Interval, txs: nat -> nat -> TxOutcome)
    ensures StreamSucceeds(Some(series), txs) <==> StoreAll(t, series, interval, None, txs, 0).1
  {
    StoreAllOk(t, series, interval, None, txs, 0);
  }

  /** `fetch_prices_batch_stream`: one batch request for the tickers, then
      the bars of every series of the answer are stored; the first write
      that fails ends the call with its error. */
  method FetchPricesBatchStream(db: Database, tickers: seq<Ticker>, interval: Interval,
                                response: Option<seq<ChartData>>, txs: nat -> nat -> TxOutcome)
    returns (r: Result<(), FetchError>, requests: seq<Request>)
    requires db.Valid()
    modifies db
    ensures db.Valid() && db.tickers == old(db.tickers)
    ensures requests == [Batch(tickers, interval)]
    ensures r.Ok? <==> StreamSucceeds(response, txs)
    ensures response.None? ==> r == Err(ProviderFailed) && db.ohlcv == old(db.ohlcv)
    ensures response.Some? ==> db.State() == StoreAll(old(db.State()), response.value, interval, None, txs, 0).0
  {
    requests := [Batch(tickers, interval)];
    if response.None? {
      return Err(ProviderFailed), requests;
    }
    var series := response.value;
    StreamSucceedsIff(db.State(), series, interval, txs);
    var i := 0;
    while i < |series|
      invariant 0 <= i <= |series|
      invariant db.Valid() && db.tickers == old(db.tickers)
      invariant StoreAll(old(db.State()), series, interval, None, txs, 0) == StoreAll(db.State(), series, interval, None, txs, i)
    {
      var s := series[i];
      ghost var before := db.State();
      var stored := db.UpsertPrices(s.symbolInfo.symbol, s.symbolInfo.exchange, interval, s.data, txs(i));
      StoreSeriesBars(before, s, interval, txs(i), db.ohlcv, stored.Ok?);
      StoreAllAdvance(before, db.State(), stored.Ok?, series, interval, None, txs, i);
      if stored.Err? {
        return Err(Store(stored.error)), requests;
      }
      i := i + 1;
    }
    return Ok(()), requests;
  }

  /** `fetch_prices_all_tickers`: nothing to do for an empty store;
      otherwise one batch request over every stored ticker. */
  method FetchPricesAllTickers(db: Database, interval: Interval,
                               response: Option<seq<ChartData>>, txs: nat -> nat -> TxOutcome)
    returns (r: Result<(), FetchError>, requests: seq<Request>)
    requires db.Valid()
    modifies db
    ensures db.Valid() && db.tickers == old(db.tickers)
    ensures old(db.tickers) == map[] ==> r == Ok(()) && requests == [] && db.ohlcv == old(db.ohlcv)
    ensures old(db.tickers) != map[] ==>
      && |requests| == 1 && requests[0].Batch? && requests[0].interval == interval
      && SortedBySymbol(requests[0].tickers) && |requests[0].tickers| == |old(db.tickers)|
      && (forall x :: x in requests[0].tickers <==> Holds(old(db.tickers), x))
      && (r.Ok? <==> StreamSucceeds(response, txs))
      && (response.None? ==> db.ohlcv == old(db.ohlcv))
      && (response.Some? ==> db.State() == StoreAll(old(db.State()), response.value, interval, None, txs, 0).0)
  {
    var tickers := db.GetAllTickers();
    if |tickers| == 0 {
      return Ok(()), [];
    }
    r, requests := FetchPricesBatchStream(db, tickers, interval, response, txs);
  }

  /** The attempt outcomes the chunked driver sees: attempt a of chunk c
      succeeds when the answer it gets is stored completely. */
  function StreamOutcomes(responses: (nat, nat) -> Option<seq<ChartData>>,
                          txs: (nat, nat) -> nat -> nat -> TxOutcome): (nat, nat) -> bool
  {
    (c: nat, a: nat) => StreamSucceeds(responses(c, a), txs(c, a))
  }

  /** The result of a chunked run: Ok when every chunk succeeded, otherwise
      the number of chunks that failed. */
  function ChunkedResult(total: nat, successful: nat): (r: Result<(), FetchError>)
    requires successful <= total
    ensures r.Ok? <==> successful == total
    ensures r.Err? ==> r.error == ChunksFailed(total - successful) && total - successful > 0
  {
    if total - successful > 0 then Err(ChunksFailed(total - successful)) else Ok(())
  }

  /** A run over all chunks ends in the result its counts give. */
  lemma ChunkedRunResult(total: nat, maxRetries: nat, ok: (nat, nat) -> bool, trace: seq<Event>, s: nat, f: nat)
    requires RunSoFar(total, maxRetries, ok, trace, s, f)
    ensures Successes(total, maxRetries, ok) <= total
    ensures ChunkedResult(total, Successes(total, maxRetries, ok)) == if f > 0 then Err(ChunksFailed(f)) else Ok(())
  {
  }

  /** What attempt a of chunk c asks the provider for: the tickers of that
      chunk, in one batch request. */
  function ChunkRequests(batches: seq<seq<Ticker>>, interval: Interval): (nat, nat) -> seq<Request>
  {
    (c: nat, a: nat) => if c < |batches| then [Batch(batches[c], interval)] else []
  }

  /** One attempt of the chunked run at a chunk: the stream call, seen as
      whether it succeeds and what it asks the provider for. */
  method AttemptStream(db: Database, tickers: seq<Ticker>, interval: Interval,
                       response: Option<seq<ChartData>>, txs: nat -> nat -> TxOutcome)
    returns (succeeded: bool, requests: seq<Request>)
    requires db.Valid()
    modifies db
    ensures db.Valid() && db.tickers == old(db.tickers)
    ensures succeeded == StreamSucceeds(response, txs)
    ensures requests == [Batch(tickers, interval)]
  {
    var r;
    r, requests := FetchPricesBatchStream(db, tickers, interval, response, txs);
    succeeded := r.Ok?;
  }

  /** Attempt a of chunk c asks for that chunk. */
  lemma ChunkRequestAt(batches: seq<seq<Ticker>>, interval: Interval, c: nat, a: nat)
    requires c < |batches|
    ensures ChunkRequests(batches, interval)(c, a) == [Batch(batches[c], interval)]
  {
  }

  /** The requests of a chunked run: one per attempt, each asking for a
      whole chunk, and every chunk asked for (at its first attempt at least). */
  lemma ChunkRequestsCover(batches: seq<seq<Ticker>>, interval: Interval, maxRetries: nat, ok: (nat, nat) -> bool)
    ensures var requests := RunLog(|batches|, maxRetries, ok, ChunkRequests(batches, interval));
      && |requests| == TotalTries(|batches|, maxRetries, ok)
      && (forall q | q in requests :: exists c | 0 <= c < |batches| :: q == Batch(batches[c], interval))
      && (forall c | 0 <= c < |batches| :: Batch(batches[c], interval) in requests)
  {
    var log := ChunkRequests(batches, interval);
    forall c, a | 0 <= c < |batches| ensures |log(c, a)| == 1 {
      ChunkRequestAt(batches, interval, c, a);
    }
    RunLogLength(|batches|, maxRetries, ok, log);
    ChunkRequestsAsked(batches, interval, maxRetries, ok);
    ChunksAsked(batches, interval, maxRetries, ok);
  }

  lemma ChunkRequestsAsked(batches: seq<seq<Ticker>>, interval: Interval, maxRetries: nat, ok: (nat, nat) -> bool)
    ensures forall q | q in RunLog(|batches|, maxRetries, ok, ChunkRequests(batches, interval)) ::
      exists c | 0 <= c < |batches| :: q == Batch(batches[c], interval)
  {
    var log := ChunkRequests(batches, interval);
    RunLogMembers(|batches|, maxRetries, ok, log);
    forall q | q in RunLog(|batches|, maxRetries, ok, log)
      ensures exists c | 0 <= c < |batches| :: q == Batch(batches[c], interval)
    {
      var c, a :| 0 <= c < |batches| && 0 <= a < Tries(c, 0, maxRetries, ok) && q in log(c, a);
      ChunkRequestAt(batches, interval, c, a);
    }
  }

  lemma ChunksAsked(batches: seq<seq<Ticker>>, interval: Interval, maxRetries: nat, ok: (nat, nat) -> bool)
    ensures forall c | 0 <= c < |batches| :: Batch(batches[c], interval) in RunLog(|batches|, maxRetries, ok, ChunkRequests(batches, interval))
  {
    var log := ChunkRequests(batches, interval);
    RunLogMembers(|batches|, maxRetries, ok, log);
    forall c | 0 <= c < |batches| ensures Batch(batches[c], interval) in RunLog(|batches|, maxRetries, ok, log) {
      ChunkRequestAt(batches, interval, c, 0);
      assert Batch(batches[c], interval) in log(c, 0);
    }
  }

  /** The attempts at chunk c of the chunked run: each asks for the chunk's
      tickers in one batch and stores the answer, until one succeeds or
      max_retries + 1 have failed. */
  method RetryChunk(db: Database, batches: seq<seq<Ticker>>, c: nat, interval: Interval, maxRetries: nat,
                    responses: (nat, nat) -> Option<seq<ChartData>>,
                    txs: (nat, nat) -> nat -> nat -> TxOutcome, ghost ok: (nat, nat) -> bool)
    returns (succeeded: bool, events: seq<Event>, requests: seq<Request>)
    requires db.Valid() && c < |batches|
    requires forall a {:trigger responses(c, a)} :: ok(c, a) == StreamSucceeds(responses(c, a), txs(c, a))
    modifies db
    ensures db.Valid() && db.tickers == old(db.tickers)
    ensures events == ChunkEvents(c, 0, maxRetries, ok)
    ensures succeeded == Succeeds(c, maxRetries, ok)
    ensures requests == AttemptLog(c, Tries(c, 0, maxRetries, ok), ChunkRequests(batches, interval))
  {
    ghost var log := ChunkRequests(batches, interval);
    var attempts := 0;
    events, requests := [], [];
    while true
      invariant attempts <= maxRetries
      invariant db.Valid() && db.tickers == old(db.tickers)
      invariant Tries(c, 0, maxRetries, ok) == attempts + Tries(c, attempts, maxRetries, ok)
      invariant ChunkEvents(c, 0, maxRetries, ok) == events + ChunkEvents(c, attempts, maxRetries, ok)
      invariant requests == AttemptLog(c, attempts, log)
      decreases maxRetries - attempts
    {
      var done, asked := AttemptStream(db, batches[c], interval, responses(c, attempts), txs(c, attempts));
      ChunkRequestAt(batches, interval, c, attempts);
      RetryStep(c, attempts, maxRetries, ok, log, events, requests, asked);
      requests := requests + asked;
      if done || attempts == maxRetries {
        events := events + [Attempt(c, attempts + 1)];
        return done, events, requests;
      }
      events := events + [Attempt(c, attempts + 1), Backoff(Pow2(attempts + 1))];
      attempts := attempts + 1;
    }
  }

  /** `fetch_prices_all_tickers_chunked_with_retry`: every stored ticker, in
      symbol order, cut into chunks of `chunk_size`, each chunk requested
      and retried as Retry describes. The universe is returned because the
      order of tickers with equal symbols is the store's choice. */
  method FetchPricesAllTickersChunkedWithRetry(db: Database, interval: Interval, chunkSize: nat, maxRetries: nat,
                                               responses: (nat, nat) -> Option<seq<ChartData>>,
                                               txs: (nat, nat) -> nat -> nat -> TxOutcome)
    returns (r: Result<(), FetchError>, universe: seq<Ticker>, trace: seq<Event>, requests: seq<Request>)
    requires db.Valid() && (db.tickers == map[] || chunkSize > 0)
    modifies db
    ensures db.Valid() && db.tickers == old(db.tickers)
    ensures SortedBySymbol(universe) && |universe| == |old(db.tickers)|
    ensures forall x :: x in universe <==> Holds(old(db.tickers), x)
    ensures universe == [] ==> r == Ok(()) && trace == [] && requests == [] && db.ohlcv == old(db.ohlcv)
    ensures universe != [] ==>
      var total, ok := DivCeil(|universe|, chunkSize), StreamOutcomes(responses, txs);
      && trace == RunEvents(total, maxRetries, ok)
      && requests == RunLog(total, maxRetries, ok, ChunkRequests(Chunks(universe, chunkSize), interval))
      && r == ChunkedResult(total, Successes(total, maxRetries, ok))
  {
    universe := db.GetAllTickers();
    if |universe| == 0 {
      return Ok(()), universe, [], [];
    }
    var totalChunks := AddDivCeil(|universe|, chunkSize);
    AddDivCeilIsDivCeil(|universe|, chunkSize);
    ghost var ok := StreamOutcomes(responses, txs);
    var successfulChunks, failedChunks := 0, 0;
    var batches := Chunks(universe, chunkSize);
    ghost var log := ChunkRequests(batches, interval);
    ChunkCount(universe, chunkSize);
    trace, requests := [], [];
    var c := 0;
    while c < |batches|
      invariant 0 <= c <= |batches|
      invariant db.Valid() && db.tickers == old(db.tickers)
      invariant LoggedSoFar(c, maxRetries, ok, log, trace, successfulChunks, failedChunks, requests)
    {
      var succeeded, events, asked := RetryChunk(db, batches, c, interval, maxRetries, responses, txs, ok);
      LoggedStep(c, maxRetries, ok, log, trace, successfulChunks, failedChunks, requests, events, succeeded, asked);
      trace := trace + events + [Pause(CHUNK_PAUSE_MS)];
      requests := requests + asked;
      if succeeded {
        successfulChunks := successfulChunks + 1;
      } else {
        failedChunks := failedChunks + 1;
      }
      c := c + 1;
    }
    ChunkedRunResult(totalChunks, maxRetries, ok, trace, successfulChunks, failedChunks);
    if failedChunks > 0 {
      return Err(ChunksFailed(failedChunks)), universe, trace, requests;
    }
    return Ok(()), universe, trace, requests;
  }
}
