/** What the drivers exchange with the market-data provider, and the
    errors they report. The provider itself is not modelled: a driver is
    given the answer a request would get. */
module Provider {
  import opened Models
  import opened Upserts

  /** One bar series of a provider answer (`ChartData`). */
  datatype ChartData = ChartData(symbolInfo: SymbolInfo, data: seq<Candle>)

  /** A request to the provider. */
  datatype Request =
    | Single(symbol: string, exchange: string, interval: Interval, replay: bool)  // `history::single::retrieve`
    | Batch(tickers: seq<Ticker>, interval: Interval)                             // `history::batch::retrieve`

  datatype FetchError =
    | EmptySymbolOrExchange                        // a ticker to fetch has an empty symbol or exchange
    | UnknownTicker(symbol: string, exchange: string)  // not in the store (older `fetch_prices`)
    | NoTickersProvided                            // `fetch_prices_batch` on an empty list
    | InvalidTicker(ticker: Ticker)                // a ticker of the batch has an empty symbol or exchange
    | ProviderFailed                               // the provider request failed
    | Store(error: StoreError)                     // a store write failed
    | ChunksFailed(count: nat)                     // the chunked drivers: this many chunks failed

  /** The message of an error, where the program writes it itself; the
      texts of provider and engine errors are not modelled. */
  function ErrorText(e: FetchError): (s: string)
    ensures s != ""
  {
    match e
    case EmptySymbolOrExchange => "Ticker symbol or exchange is empty"
    case UnknownTicker(symbol, exchange) => "Ticker " + symbol + " on exchange " + exchange + " does not exist"
    case NoTickersProvided => "No tickers provided for batch processing"
    case InvalidTicker(_) => "Ticker symbol or exchange is empty for ticker"
    case ProviderFailed => "provider error"
    case Store(_) => "database error"
    case ChunksFailed(_) => "chunks failed to process"
  }
}
