# vnquant-dataset: fetch-and-persist pipeline, modelled in Dafny

vnquant-dataset collects market data from a TradingView-style provider into
a SQLite store. This project models the core of that pipeline:

- **Records** (`models.dfy`, module `Models`): the `Ticker` instrument,
  keyed by (symbol, exchange) and carrying seven optional metadata fields;
  the OHLCV `Candle`; and the small mappings the `MarketSymbol` and `OHLCV`
  traits put on them.
- **Store** (`store.dfy`, module `Db`): class `Database` holds the two
  tables as maps. The tickers table is keyed by (symbol, exchange). The
  OHLCV table is keyed by (symbol, exchange, interval, timestamp). The
  class has the readers, the bulk upserts, the single-row updates and the
  deletes.
  - The bulk upserts run in sub-batches of 1000 rows, one transaction each.
  - Whether a transaction commits, and how many rows it reports, is a
    `TxOutcome` oracle supplied by the caller.
  - Upserts and sub-batch outcomes are stated on values in `upsert.dfy`
    (module `Upserts`). The splitting into consecutive chunks, as Rust's
    `slice::chunks` does it, is in `batches.dfy` (module `Batches`).
  - The ordered reads build their results by ordered insertion. The
    insertion functions are in `ordering.dfy` (module `Ordering`).
- **Drivers**, in two revisions of the same module:
  - `finance_utils.dfy` (module `FinanceUtils`) is the older revision.
    Its `fetch_prices` rejects unknown tickers.
  - `finance_cmd.dfy` (module `FinanceCmd`) is the newer one. Its
    `fetch_prices` registers unknown tickers. It also validates a whole
    batch first, refreshes ticker rows before storing bars, and adds the
    intraday driver.
  - The provider is a parameter: each request gets a given answer, or
    `None` when the call fails.
  - The retry schedule shared by both chunked drivers is in `retry.dfy`
    (module `Retry`).
  - Writing the series of one answer is in `series.dfy` (module `Series`).
  - Requests and errors are in `provider.dfy` (module `Provider`).
- **Columnar export** (`format.dfy`, module `Format`): the nine-column
  ticker schema, `to_batch` and `from_batch` with round-trip lemmas in
  both directions, and the batches that `save_parquet_batched` hands to
  its writer.

Concurrent parts of the source are run one at a time:

- `buffer_unordered` over the series of one answer runs them sequentially,
  in the order of the answer.
- The intraday driver's results come in a completion order `order`, which
  is a parameter. It is required to be a permutation of the ticker indices.
- Sleeps become events in a trace: `Backoff(seconds)` and `Pause(millis)`.

Where a driver's SQL behaviour depends on a statement not in the shown
store, the code was followed. `fetch_prices_batch` calls `upsert_ticker`,
which `src/finance/db.rs` does not define. It is modelled as
`update_ticker`, the store's one single-row keyed upsert.

## Model

| member | source | states |
|---|---|---|
| Models.NewTicker | src/finance/models.rs:19-42 | every builder argument lands in the field of the same name |
| Models.NewTickerRebuilds | src/finance/models.rs:19-42 | the builder is an identity over fields: rebuilding a ticker from its own fields gives that ticker |
| Models.FromSymbol | src/finance/models.rs:45-59 | symbol and exchange are copied; description, currency, country and market type are wrapped in Some; industry, sector and founded are None |
| Models.MarketSymbolNew | src/finance/models.rs:62-74 | the ticker keeps symbol and exchange, and all seven optional fields are None |
| Models.Currency | src/finance/models.rs:84-86 | the stored currency when there is one, "N/A" otherwise |
| Models.MarketTypeOf | src/finance/models.rs:88-96 | each of "stock", "forex", "crypto" and "futures" gives its category and only it does; any other string, or none, gives All |
| Models.MarketTypeName | src/finance/models.rs:88-96 | the string naming a category, absent exactly for All |
| Models.MarketTypeRoundTrip | src/finance/models.rs:88-96 | a market type other than All is stored under exactly its name, and storing a category's name gives that category back |
| Models.MarketSymbolViews | src/finance/models.rs:45-96 | a listed symbol's currency comes back as its currency code, and its category is All exactly when its market type is none of the four names; a bare `MarketSymbol::new` ticker reports "N/A" and All |
| Models.TimestampMillis | src/finance/models.rs:110-136 | `timestamp()` is `datetime()` in whole milliseconds, rounded down |
| Models.IsOhlcv | src/finance/models.rs:138-140 | always true |
| Batches.DivCeil | src/finance/cmd.rs:146 | the least q with q * size >= n |
| Batches.AddDivCeilIsDivCeil | src/finance/utils.rs:143 | the hand-written `(n + size - 1) / size` equals `div_ceil` |
| Batches.ChunksShape | src/finance/utils.rs:154 | the chunks joined give back the input; every chunk is non-empty and at most `size` long; all but the last are exactly `size` long |
| Batches.ChunkCount | src/finance/cmd.rs:146-157 | there are exactly ceil(n / size) chunks |
| Batches.ChunkAt | src/finance/utils.rs:154 | chunk i is the slice from i * size to min((i + 1) * size, n) |
| Batches.FlattenChunksPrefix | src/finance/db.rs:200-233 | the first p chunks joined are the input's prefix of length min(p * size, n) |
| Batches.Pow2 | src/finance/utils.rs:191 | `2u64.pow(k)`, at least 1 |
| Ordering.TextLeTotal | src/finance/db.rs:90 | any two symbols are comparable in the `ORDER BY symbol` collation |
| Ordering.TextLeTransitive | src/finance/db.rs:90 | the collation is transitive |
| Ordering.TextLeAntisymmetric | src/finance/db.rs:90 | two symbols ordered both ways are equal |
| Ordering.InsertBySymbol | src/finance/db.rs:88-111 | inserting into a symbol-sorted list keeps it sorted and adds exactly the new row |
| Ordering.InsertByTime | src/finance/db.rs:356 | inserting a bar with a new instant into a list strictly ascending in time keeps it ascending and adds exactly that bar |
| Upserts.UpsertConcat | src/finance/db.rs:200-233 | writing a + b is writing a, then b |
| Upserts.UpsertOthersUnchanged | src/finance/db.rs:219-226 | a key that no written row carries keeps its presence and its row |
| Upserts.UpsertLastWins | src/finance/db.rs:219-226 | the table holds, under a key, the last written row with that key |
| Upserts.UpsertKeys | src/finance/db.rs:207-226 | the keys afterwards are the old keys plus the rows' keys |
| Upserts.UpsertKeyed | src/finance/db.rs:219-226 | a table keyed by its rows' keys (at most one row per key) stays so |
| Upserts.UpsertStored | src/finance/db.rs:219-226 | re-upserting rows the table already holds under their keys changes nothing |
| Upserts.UpsertIdempotent | src/finance/db.rs:219-226 | upserting the same rows twice is upserting them once |
| Upserts.Stage | src/finance/db.rs:207-229 | one statement's rows, applied in turn, give the keyed upsert of the table |
| Upserts.FirstFailure | src/finance/db.rs:200-233 | the first sub-batch whose transaction fails: all before it commit, and it fails unless it is past the last |
| Upserts.UpsertOutcome | src/finance/db.rs:192-236 | Ok(0) on no rows; Ok exactly when every sub-batch commits, with their affected counts summed; otherwise the error names a sub-batch whose transaction failed |
| Upserts.StoredRows | src/finance/db.rs:200-233 | every row is stored exactly when the upsert is Ok; otherwise exactly the whole sub-batches before the failing one |
| Upserts.UpsertOne | src/finance/cmd.rs:64-65 | a one-row upsert stores and reports its row exactly when its only transaction commits |
| Upserts.CommittedPrefix | src/finance/db.rs:200-233 | when sub-batches before i commit and sub-batch i fails (or is past the last), the stored rows are the first i sub-batches and the result is the outcome above |
| Db.TickerOfInfo | src/finance/db.rs:152-163 | the row built from provider metadata: every SymbolInfo field in Some, and country None |
| Db.CandlesKeyed | src/finance/db.rs:304-317 | after storing bars, every bar sits under a key with its own instant |
| Db.Database.constructor | src/finance/db.rs:14-21 | a store holding the given keyed tables |
| Db.Database.GetTicker | src/finance/db.rs:62-86 | Some exactly when (symbol, exchange) is stored, and then the row stored under it |
| Db.Database.TickerExists | src/finance/db.rs:139-149 | true exactly when `get_ticker` finds a row |
| Db.Database.TickerCount | src/finance/db.rs:279-285 | the number of stored tickers, 0 exactly for an empty table |
| Db.Database.GetTickerBySymbol | src/finance/db.rs:37-60 | None exactly when no stored ticker has that symbol; otherwise a stored row with that symbol |
| Db.Database.SelectTickers | src/finance/db.rs:88-137 | the stored rows on the exchange (or all), each once, sorted by symbol, as many as there are such keys |
| Db.Database.GetAllTickers | src/finance/db.rs:88-111 | every stored ticker exactly once, sorted by symbol |
| Db.Database.GetTickersByExchange | src/finance/db.rs:113-137 | exactly the stored tickers of that exchange, each once, sorted by symbol |
| Db.Database.GetPrices | src/finance/db.rs:330-376 | exactly the stored bars of that symbol, exchange and interval inside the inclusive optional window, strictly ascending in time |
| Db.Database.UpsertTickers | src/finance/db.rs:192-236 | the result is the sub-batch outcome, the tickers table is the keyed upsert of the stored prefix, and the bars table is unchanged |
| Db.Database.UpsertPrices | src/finance/db.rs:287-327 | the same for bars, keyed by symbol, exchange, interval and instant; the tickers table is unchanged |
| Db.Database.UpdateTicker | src/finance/db.rs:152-189 | on commit, the metadata row replaces the row under its key, with country reset to None; on failure nothing changes |
| Db.Database.UpdateTickerInfo | src/finance/db.rs:260-277 | true exactly when the key was stored; only then the row is overwritten; no key is added |
| Db.Database.DeleteTicker | src/finance/db.rs:239-249 | true exactly when the key was stored; the key is gone afterwards; the bars table is left as it was (no foreign key assumed, see Left out) |
| Db.Database.DeleteTickersByExchange | src/finance/db.rs:251-257 | exactly the rows of that exchange are removed, and their number is returned; the bars table is left as it was (no foreign key assumed, see Left out) |
| Provider.ErrorText | src/finance/cmd.rs:93-102 | every error has a non-empty message |
| Series.StoreAllOk | src/finance/utils.rs:98-112 | the series of an answer are all stored exactly when each one is written completely |
| Series.StoreSeriesOk | src/finance/utils.rs:104-108 | one series is reported written exactly when its refresh (if any) commits and all its bars' sub-batches commit |
| Series.StoreAllKeepsTickers | src/finance/utils.rs:98-112 | without ticker refreshes, writing an answer never touches the tickers table |
| Retry.Tries | src/finance/utils.rs:161-214 | a chunk gets between 1 and max_retries + 1 attempts; all but the last failed; the last succeeded or was attempt max_retries + 1 |
| Retry.SucceedsIff | src/finance/utils.rs:161-214 | a chunk succeeds exactly when one of its max_retries + 1 attempts would; a failed chunk used all of them |
| Retry.ChunkEventsShape | src/finance/utils.rs:161-201 | a chunk's trace alternates attempts 1, 2, ... with backoffs; the k-th failure is followed by 2^k seconds of backoff except after the last attempt |
| Retry.Successes | src/finance/utils.rs:182 | at most one success per chunk |
| Retry.SuccessesAll | src/finance/utils.rs:228-235 | all chunks are counted successful exactly when each succeeds; none exactly when each fails |
| Retry.RunCounts | src/finance/utils.rs:154-219 | a run over k chunks pauses exactly k times and attempts each chunk as often as Tries says |
| Retry.TotalTriesBound | src/finance/utils.rs:161 | at most k * (max_retries + 1) attempts in all |
| Retry.RetryStep | src/finance/utils.rs:161-214 | one pass of the retry loop: the attempt's log is appended; a success or the last attempt ends the chunk with the right count and trace; otherwise a backoff of 2^(a+1) s and the next attempt follow |
| Retry.LoggedStep | src/finance/utils.rs:154-219 | one pass of the chunk loop: the chunk's events, the pause and its attempts' log are appended, and it is counted as a success or a failure |
| Retry.RunLogMembers | src/finance/utils.rs:154-214 | the run's log holds exactly what the attempts the schedule makes leave behind |
| Retry.RunLogLength | src/finance/utils.rs:154-214 | with at most (exactly) one entry per attempt, the log has at most (exactly) as many entries as the run has attempts |
| FinanceUtils.StoreResult | src/finance/utils.rs:81 | Ok exactly when the write is Ok; a failed write is reported as its store error |
| FinanceUtils.FetchPrices | src/finance/utils.rs:52-84 | an empty symbol or exchange, or an unknown ticker, is rejected with no request and no write; otherwise one single request, and its answer's bars are upserted with the write's outcome as result |
| FinanceUtils.StreamSucceedsIff | src/finance/utils.rs:98-112 | an answer is stored completely exactly when writing its series in turn gets to the end |
| FinanceUtils.FetchPricesBatchStream | src/finance/utils.rs:86-115 | one batch request; Ok exactly when the provider answers and every series' bars are stored; the store is the sequential write of the answer; tickers never change |
| FinanceUtils.FetchPricesAllTickers | src/finance/utils.rs:117-129 | an empty store gives Ok with no request and no change; otherwise one batch request over every stored ticker, sorted by symbol, succeeding as the stream does and leaving the store as the stream's sequential write of the answer (bars unchanged without an answer) |
| FinanceUtils.ChunkedResult | src/finance/utils.rs:228-235 | Ok exactly when every chunk succeeded; otherwise the number of failed chunks, which is positive |
| FinanceUtils.ChunkedRunResult | src/finance/utils.rs:221-235 | after all chunks, "failed > 0 then error" is the result ChunkedResult gives |
| FinanceUtils.ChunkRequestsCover | src/finance/utils.rs:154-173 | a chunked run makes one request per attempt, each a batch over one whole chunk, and asks for every chunk |
| FinanceUtils.AttemptStream | src/finance/utils.rs:173 | one attempt succeeds exactly when the stream call stores the whole answer, asks for this chunk in one batch, and leaves the tickers alone |
| FinanceUtils.RetryChunk | src/finance/utils.rs:155-215 | given `ok(c, a)` as the outcome of the stream call at attempt a, a chunk's attempts produce exactly its event trace and succeed exactly as the schedule says; each of its Tries attempts asks for exactly this chunk in one batch |
| FinanceUtils.FetchPricesAllTickersChunkedWithRetry | src/finance/utils.rs:131-236 | returns the symbol-sorted universe of stored tickers; an empty store gives Ok, no event and no request; otherwise the trace is the schedule over ceil(n / chunk_size) chunks, the requests are, chunk by chunk in order, one batch over `Chunks(universe, chunk_size)[c]` per attempt, and the result is an error exactly when some chunk failed; chunk_size 0 is accepted on an empty store |
| FinanceCmd.PriceResult | src/finance/cmd.rs:82 | Ok exactly when the bar upsert is Ok |
| FinanceCmd.FetchPrices | src/finance/cmd.rs:52-85 | an empty symbol or exchange is rejected untouched; an unknown ticker is registered first, and a failed registration ends the call; a known one is not rewritten and its bars become KnownBars; then one single request, with its bars upserted |
| FinanceCmd.FirstInvalid | src/finance/cmd.rs:96-103 | the first ticker with an empty symbol or exchange, every earlier one being valid |
| FinanceCmd.WriteSeries | src/finance/cmd.rs:114-129 | each series refreshes its ticker row and then stores its bars, stopping at the first failing write, whose store error is the result |
| FinanceCmd.SeriesSucceedIff | src/finance/cmd.rs:114-129 | the series are all written exactly when each one's refresh and bars commit |
| FinanceCmd.FetchPricesBatch | src/finance/cmd.rs:87-132 | an empty list, or the first invalid ticker, is rejected before any write or request; then the whole list is upserted and one batch request is made; the answer is written as WriteSeries does; Ok exactly when all of it succeeds |
| FinanceCmd.BatchAsked | src/finance/cmd.rs:92-111 | the batch call asks for the whole list once, exactly when the list is non-empty, every ticker is valid and the list's upsert commits; otherwise it asks for nothing |
| FinanceCmd.AttemptBatch | src/finance/cmd.rs:176 | one attempt succeeds exactly when the batch call does, and asks for what the batch call asks for |
| FinanceCmd.BatchRequestsCover | src/finance/cmd.rs:157-176 | a run of `fetch_prices_all` makes at most one request per attempt, each a batch over one whole chunk, and every chunk that succeeds was asked for |
| FinanceCmd.RetryBatch | src/finance/cmd.rs:158-218 | given `ok(c, a)` as the outcome of the batch call at attempt a, a chunk's attempts at the batch call produce exactly its event trace and succeed as the schedule says; the requests are those of its Tries attempts at exactly this chunk |
| FinanceCmd.RunBatches | src/finance/cmd.rs:157-222 | the chunk loop produces the run's trace and request log, and counts the successful and failed chunks |
| FinanceCmd.FetchPricesAll | src/finance/cmd.rs:134-239 | an empty store gives Ok, no event, no request and no change; otherwise the trace is the schedule over `div_ceil(n, chunk_size)` chunks of the symbol-sorted tickers, the requests are, chunk by chunk in order, what each attempt at `Chunks(universe, chunk_size)[c]` asks for, and the result is an error exactly when some chunk failed; chunk_size 0 is accepted on an empty store |
| FinanceCmd.ProgressInterval | src/finance/cmd.rs:255 | a twentieth of the total rounded down, and at least 1 |
| FinanceCmd.FailureText | src/finance/cmd.rs:297 | the entry is the symbol, ':', the exchange, " - " and then exactly the error's message |
| FinanceCmd.SuccessCount | src/finance/cmd.rs:280-285 | at most one success per result |
| FinanceCmd.TallyTotal | src/finance/cmd.rs:280-306 | every result is a success or a failure entry: successful + failures = processed |
| FinanceCmd.ProgressLogged | src/finance/cmd.rs:283-294 | a progress line comes after a success exactly when the processed count is a multiple of the interval or the total; each line shows the successes so far |
| FinanceCmd.Tally | src/finance/cmd.rs:280-306 | the results loop counts every result, tallies the successes, lists the failures in order, and logs progress as above |
| FinanceCmd.ReportsDetermined | src/finance/cmd.rs:316-325 | the closing warnings are determined by the failure list |
| FinanceCmd.ReportFailures | src/finance/cmd.rs:316-325 | nothing without failures; otherwise the count, the first min(10, f) entries in order, and "... and f - 10 more" exactly when f > 10 |
| FinanceCmd.KnownOutcome | src/finance/cmd.rs:52-85 | for a ticker already stored: Ok exactly when it is valid, the provider answers and its bars' upsert commits |
| FinanceCmd.KnownRunBarsOthers | src/finance/cmd.rs:267-278 | a run of fetches leaves every bar of another ticker or another interval as it was |
| FinanceCmd.FetchOne | src/finance/cmd.rs:271-273 | one fetch gives its ticker's entry and single requests only; for a stored ticker, its own outcome, the tickers table unchanged and the bars as KnownBars |
| FinanceCmd.FetchEach | src/finance/cmd.rs:267-278 | one result per fetch, in completion order, each for its ticker; when every ticker is already stored, each result is that ticker's own outcome, the tickers table is unchanged and the bars are KnownRunBars over the completion order |
| FinanceCmd.FetchIntradayPrices | src/finance/cmd.rs:241-327 | only a failed upfront upsert is an error; otherwise Ok, one result per ticker, and counters, failure list, progress and report as the results loop and report give them; after a committed upfront upsert, or with every ticker stored and no upsert, the tickers table and the bars (KnownRunBars over the completion order) are stated |
| FinanceCmd.UpfrontEffect | src/finance/cmd.rs:249-252 | a committed upfront upsert stores every ticker's key; re-upserting rows the table holds changes nothing, whatever part of them is stored |
| FinanceCmd.FetchIntradayPricesAll | src/finance/cmd.rs:329-348 | an empty store gives Ok with no fetch; otherwise the intraday driver runs over every stored ticker with replay and the upfront upsert; the tickers table ends as it began; each result is its ticker's own outcome; the bars are KnownRunBars over the completion order on success and unchanged on failure |
| Format.TickerSchema | src/utils/format.rs:8-20 | nine fields named symbol, exchange, description, currency, country, market_type, industry, sector, founded, in that order: only symbol and exchange are non-nullable, and only founded is Int64 |
| Format.ToBatch | src/utils/format.rs:23-100 | a batch under the tickers schema with one row per ticker, agreeing with its schema and readable by `from_batch` |
| Format.Rows | src/utils/format.rs:192-234 | `num_rows` tickers, ticker i built from entry i of every column |
| Format.FromBatch | src/utils/format.rs:143-237 | the loop returns exactly those tickers: a null optional entry becomes None, any other becomes Some of its value |
| Format.RowsOfToBatch | src/utils/format.rs:23-237 | round trip: reading back the batch built from tickers gives the tickers |
| Format.ToBatchOfRows | src/utils/format.rs:23-237 | round trip: rebuilding a schema-conforming batch from its rows gives the batch |
| Format.SaveParquetBatched | src/utils/format.rs:118-141 | nothing is written for no tickers; otherwise `to_batch` of each consecutive `batch_size` chunk, in order, ceil(n / batch_size) batches whose rows joined are the tickers |

## Left out

- I/O and logging: `tracing` output, elapsed durations, success percentages
  and real sleeps are not modelled. A sleep becomes an event in the trace.
- The SQL engine: a transaction's outcome and its `rows_affected` count are
  oracle values.
- Errors of the reads and deletes: the model treats reads, single-row
  updates and deletes as always succeeding. Only the transactional writes
  that the drivers depend on can fail. This covers `get_ticker` being
  called with `?` in `fetch_prices`.
- Db.Database.DeleteTicker and Db.Database.DeleteTickersByExchange: the
  bars of a deleted ticker are assumed untouched. The schema migrations are
  not part of this model, so whether a bar row references its ticker is not
  known. With a foreign key from the bars table to the tickers table (which
  SQLite enforces when the connection enables it), deleting a ticker that
  still has bars would fail or cascade. Neither outcome is modelled.
- `Database::new`, `get_pool`, `close` and `execute`: connection handling.
  The constructor starts from given tables.
- UpsertTickers and UpsertPrices:
  - whether the begin, the statement or the commit fails is one
    `Failed` outcome per sub-batch;
  - the u64 sum of affected counts is unbounded here.
- Batches.Pow2: `2u64.pow` is unbounded here, and `attempts as u32` is not
  truncated. Both only matter for retry counts far beyond any real
  `max_retries`.
- Batches.AddDivCeilIsDivCeil: the `usize` overflow of `n + chunk_size - 1`
  is not modelled.
- A `chunk_size` or `batch_size` of 0 on a non-empty input makes the source
  panic in the division or in `chunks`. The model excludes only that case
  by a precondition; on an empty input both sources return `Ok(())` first,
  and so does the model.
- Concurrency: `buffer_unordered` becomes sequential processing.
  - For an answer's series, they run in the order of the answer, and the
    first failing write stops the rest. Writes that a concurrent run would
    already have started are not modelled.
  - For the intraday driver, the completion order is a parameter.
  - The concurrency limit is not modelled.
- FinanceCmd.FetchPricesAll and FinanceUtils.FetchPricesAllTickersChunkedWithRetry
  state the trace, the requests and the result, not the final bars table,
  which depends on every attempt's writes. The tickers table staying
  unchanged in the older revision is stated.
- FinanceCmd.FetchEach: when some ticker is unknown, its state and results
  are stated only per call (FinanceCmd.FetchPrices), not for the whole run.
- FinanceCmd.FetchIntradayPrices: without the upfront upsert and with some
  ticker unknown, the tables after the run are not stated, because each
  fetch may register its ticker (see FinanceCmd.FetchEach).
- The `if let Some(last_error)` block in both chunked drivers runs on a
  value that is always `None`, so it has no behaviour to model.
- Provider.ErrorText: the texts of provider and engine errors, and the
  numbers and `Debug` output the source's messages interpolate, are not
  reproduced. FinanceCmd.FailureText states the entry exactly, with its
  tail equal to that (abstract) message.
- `MarketSymbol::symbol` and `exchange` are field reads; they appear as
  `t.symbol` and `t.exchange` and have no member of their own. The `OHLCV`
  price getters return the stored values, which are carried as opaque
  bit patterns.
- `fetch_tickers` (both revisions): JSON configuration reading and the
  provider's symbol listing are I/O. Only its conversion, `From<Symbol>`,
  is modelled.
- `search_tickers_by_field`, called from a test in `src/finance/cmd.rs`, is
  not defined in the store and is not modelled.
- `src/bin/cli.rs` is not part of this model. It chooses
  `chunk_size = 100` and `max_retries = 2`, and the drivers here take both
  as parameters.
- `save_parquet` and the Parquet writer: file I/O. `save_parquet_batched`
  is modelled as the sequence of batches it writes.
- `to_batch`'s `RecordBatch::try_new` error cannot happen: the columns are
  built to match the schema.
- Format.FromBatch: the `downcast_ref(...).unwrap()` panics become the
  precondition `Readable`. What Arrow's `value(i)` returns for a null
  slot of a required column is unspecified. The model reads it as the
  empty string.
- `Indicator` and `MlFeatures` in `src/finance/models.rs` are plain
  records no core operation uses.
