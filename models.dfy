/** The records of src/finance/models.rs and the provider types they are
    built from: an instrument (`Ticker`), an OHLCV bar (`Candle`), and the
    small mappings the `MarketSymbol` and `OHLCV` traits put on them. */
module Models {
  import opened Wrappers

  /** Rust's `i64`: the type of the `founded` year. */
  newtype i64 = x: int | -0x8000_0000_0000_0000 <= x < 0x8000_0000_0000_0000

  /** An `f64` as its bit pattern. Prices and volumes are only carried from
      the provider to the store and back, never computed with. */
  datatype F64 = F64(bits: bv64)

  /** A UTC instant, in nanoseconds since the Unix epoch (`DateTime<Utc>`). */
  type Instant = int

  /** The bar intervals the provider serves. */
  datatype Interval =
    | OneMinute | FiveMinutes | FifteenMinutes | ThirtyMinutes
    | OneHour | TwoHours | FourHours | OneDay | OneWeek | OneMonth

  /** An instrument: (symbol, exchange) is its key, the other seven fields
      are optional metadata. */
  datatype Ticker = Ticker(
    symbol: string,
    exchange: string,
    description: Option<string>,
    currency: Option<string>,
    country: Option<string>,
    marketType: Option<string>,
    industry: Option<string>,
    sector: Option<string>,
    founded: Option<i64>)

  /** One entry of the provider's symbol listing (`tradingview::Symbol`). */
  datatype Symbol = Symbol(
    symbol: string,
    exchange: string,
    description: string,
    currencyCode: string,
    countryCode: string,
    marketType: string)

  /** The instrument metadata that comes back with a bar series
      (`tradingview::SymbolInfo`). It carries no country. */
  datatype SymbolInfo = SymbolInfo(
    symbol: string,
    exchange: string,
    description: string,
    currencyCode: string,
    marketType: string,
    industry: string,
    sector: string,
    founded: i64)

  /** The provider's market categories, as far as `market_type()` produces them. */
  datatype StocksType = AllStocks
  datatype CryptoType = AllCrypto
  datatype MarketType = All | Stocks(stocks: StocksType) | Forex | Crypto(crypto: CryptoType) | Futures

  /** `Ticker::new`, the builder: every argument lands in the field of the same name. */
  function NewTicker(
    symbol: string, exchange: string, description: Option<string>, currency: Option<string>,
    country: Option<string>, marketType: Option<string>, industry: Option<string>,
    sector: Option<string>, founded: Option<i64>): (t: Ticker)
    ensures t.symbol == symbol && t.exchange == exchange
    ensures t.description == description && t.currency == currency && t.country == country
    ensures t.marketType == marketType && t.industry == industry && t.sector == sector
    ensures t.founded == founded
  {
    Ticker(symbol, exchange, description, currency, country, marketType, industry, sector, founded)
  }

  /** The builder is an identity over fields: rebuilding a ticker from its
      own fields gives the same ticker. */
  lemma NewTickerRebuilds(t: Ticker)
    ensures NewTicker(t.symbol, t.exchange, t.description, t.currency, t.country,
                      t.marketType, t.industry, t.sector, t.founded) == t
  {
  }

  /** `From<Symbol> for Ticker`: the key is copied, the four listed
      attributes are wrapped in `Some`, industry, sector and founded stay
      unknown. */
  function FromSymbol(s: Symbol): (t: Ticker)
    ensures t.symbol == s.symbol && t.exchange == s.exchange
    ensures t.description == Some(s.description) && t.currency == Some(s.currencyCode)
    ensures t.country == Some(s.countryCode) && t.marketType == Some(s.marketType)
    ensures t.industry == None && t.sector == None && t.founded == None
  {
    Ticker(s.symbol, s.exchange, Some(s.description), Some(s.currencyCode),
           Some(s.countryCode), Some(s.marketType), None, None, None)
  }

  /** `MarketSymbol::new`: a bare key with no metadata at all. */
  function MarketSymbolNew(symbol: string, exchange: string): (t: Ticker)
    ensures t.symbol == symbol && t.exchange == exchange
    ensures t.description == None && t.currency == None && t.country == None
    ensures t.marketType == None && t.industry == None && t.sector == None
    ensures t.founded == None
  {
    Ticker(symbol, exchange, None, None, None, None, None, None, None)
  }

  /** `MarketSymbol::currency`: the stored currency, or "N/A" when unknown. */
  function Currency(t: Ticker): (c: string)
    ensures t.currency.Some? ==> c == t.currency.value
    ensures t.currency.None? ==> c == "N/A"
  {
    match t.currency
    case Some(code) => code
    case None => "N/A"
  }

  /** `MarketSymbol::market_type`: exactly four strings name a category;
      every other string, and a missing one, means All. */
  function MarketTypeOf(t: Ticker): (m: MarketType)
    ensures m == Stocks(AllStocks) <==> t.marketType == Some("stock")
    ensures m == Forex <==> t.marketType == Some("forex")
    ensures m == Crypto(AllCrypto) <==> t.marketType == Some("crypto")
    ensures m == Futures <==> t.marketType == Some("futures")
    ensures m == All <==> t.marketType !in {Some("stock"), Some("forex"), Some("crypto"), Some("futures")}
  {
    match t.marketType
    case Some("stock") => Stocks(AllStocks)
    case Some("forex") => Forex
    case Some("crypto") => Crypto(AllCrypto)
    case Some("futures") => Futures
    case _ => All
  }

  /** The string that names a category when it is stored as `market_type`
      (None for All, which no single string names). */
  function MarketTypeName(m: MarketType): (name: Option<string>)
    ensures name.None? <==> m == All
  {
    match m
    case Stocks(_) => Some("stock")
    case Forex => Some("forex")
    case Crypto(_) => Some("crypto")
    case Futures => Some("futures")
    case All => None
  }

  /** The mapping and its naming are inverse: a ticker whose category is
      not All stores exactly that category's name, and storing a category's
      name gives that category back. */
  lemma MarketTypeRoundTrip(t: Ticker, m: MarketType)
    ensures MarketTypeOf(t) != All ==> t.marketType == MarketTypeName(MarketTypeOf(t))
    ensures MarketTypeOf(t.(marketType := MarketTypeName(m))) == m
  {
    match m
    case Stocks(s) => assert s == AllStocks;
    case Crypto(c) => assert c == AllCrypto;
    case _ =>
  }

  /** What the `MarketSymbol` accessors report for the two ways a ticker is
      made from provider data. */
  lemma MarketSymbolViews(s: Symbol, symbol: string, exchange: string)
    ensures Currency(FromSymbol(s)) == s.currencyCode
    ensures MarketTypeOf(FromSymbol(s)) == All <==> s.marketType !in {"stock", "forex", "crypto", "futures"}
    ensures Currency(MarketSymbolNew(symbol, exchange)) == "N/A"
    ensures MarketTypeOf(MarketSymbolNew(symbol, exchange)) == All
  {
  }

  /** One OHLCV bar. */
  datatype Candle = Candle(timestamp: Instant, open: F64, high: F64, low: F64, close: F64, volume: F64)

  /** `OHLCV::datetime`: the stored instant itself. */
  function Datetime(c: Candle): Instant
  {
    c.timestamp
  }

  /** `OHLCV::timestamp`: the instant of `datetime()` in whole milliseconds,
      rounded down (chrono's `timestamp_millis`). */
  function TimestampMillis(c: Candle): (ms: int)
    ensures ms * 1_000_000 <= Datetime(c) < (ms + 1) * 1_000_000
  {
    c.timestamp / 1_000_000
  }

  /** `OHLCV::is_ohlcv`: a candle is always a genuine OHLCV bar. */
  function IsOhlcv(c: Candle): (b: bool)
    ensures b
  {
    true
  }
}
