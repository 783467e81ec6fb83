/** The SQLite store of src/finance/db.rs, with its two tables as maps: the
    tickers table keyed by (symbol, exchange) and the OHLCV table keyed by
    (symbol, exchange, interval, timestamp). The SQL engine is not modelled;
    whether a write's transaction commits, and how many rows it reports as
    affected, is given by the caller as a TxOutcome. */
module Db {
  import opened Wrappers
  import opened Models
  import opened Batches
  import opened Ordering
  import opened Upserts

  datatype TickerKey = TickerKey(symbol: string, exchange: string)

  /** The conflict target of the tickers table. */
  function KeyOf(t: Ticker): (k: TickerKey)
    ensures k.symbol == t.symbol && k.exchange == t.exchange
  {
    TickerKey(t.symbol, t.exchange)
  }

  datatype CandleKey = CandleKey(symbol: string, exchange: string, interval: Interval, timestamp: Instant)

  /** The key a bar of `symbol` on `exchange` at `interval` is stored under. */
  function CandleKeyer(symbol: string, exchange: string, interval: Interval): Candle -> CandleKey
  {
    (c: Candle) => CandleKey(symbol, exchange, interval, c.timestamp)
  }

  /** The row `update_ticker` writes for provider metadata: every field
      that SymbolInfo carries, wrapped in Some, and no country. */
  function TickerOfInfo(info: SymbolInfo): (t: Ticker)
    ensures t.symbol == info.symbol && t.exchange == info.exchange
    ensures t.description == Some(info.description) && t.currency == Some(info.currencyCode)
    ensures t.country == None
    ensures t.marketType == Some(info.marketType)
    ensures t.industry == Some(info.industry) && t.sector == Some(info.sector)
    ensures t.founded == Some(info.founded)
  {
    Ticker(info.symbol, info.exchange, Some(info.description), Some(info.currencyCode), None,
           Some(info.marketType), Some(info.industry), Some(info.sector), Some(info.founded))
  }

  /** A bound of `get_prices`: None leaves that side open; both sides are inclusive. */
  predicate InWindow(t: Instant, start: Option<Instant>, end: Option<Instant>)
  {
    (start.None? || start.value <= t) && (end.None? || t <= end.value)
  }

  /** No element occurs twice. */
  ghost predicate NoDuplicates<T(!new)>(s: seq<T>)
  {
    forall x :: multiset(s)[x] <= 1
  }

  /** The elements of an ordered insertion are the old ones and the new one. */
  lemma InsertMembers<T(!new)>(r: seq<T>, r': seq<T>, x: T)
    requires multiset(r') == multiset(r) + multiset{x}
    ensures forall y :: y in r' <==> y in r || y == x
    ensures x !in r && NoDuplicates(r) ==> NoDuplicates(r')
  {
    forall y ensures y in r' <==> y in r || y == x {
      assert y in r' <==> y in multiset(r');
      assert y in r <==> y in multiset(r);
    }
  }

  /** x is the row stored under its own key. */
  ghost predicate Holds(tickers: map<TickerKey, Ticker>, x: Ticker)
  {
    KeyOf(x) in tickers && tickers[KeyOf(x)] == x
  }

  /** The `WHERE exchange = ?` filter, absent for `get_all_tickers`. */
  predicate OnExchange(x: Ticker, exchange: Option<string>)
  {
    exchange.None? || x.exchange == exchange.value
  }

  /** The keys of the rows on `exchange`, or of all rows when none is given. */
  ghost function KeysOn(tickers: map<TickerKey, Ticker>, exchange: Option<string>): set<TickerKey>
  {
    set k | k in tickers && OnExchange(tickers[k], exchange)
  }

  /** The state of the reader's loop: r holds, sorted and once each, the
      matching rows whose keys are no longer in todo. */
  ghost predicate SelectedSoFar(tickers: map<TickerKey, Ticker>, exchange: Option<string>,
                                todo: set<TickerKey>, r: seq<Ticker>)
  {
    && SortedBySymbol(r) && NoDuplicates(r)
    && (forall x :: x in r <==> Holds(tickers, x) && OnExchange(x, exchange) && KeyOf(x) !in todo)
    && |r| == |KeysOn(tickers, exchange) - todo|
  }

  lemma SelectStep(tickers: map<TickerKey, Ticker>, exchange: Option<string>,
                   todo: set<TickerKey>, k: TickerKey, r: seq<Ticker>, r': seq<Ticker>)
    requires KeyedBy(tickers, KeyOf) && k in todo && todo <= tickers.Keys
    requires SelectedSoFar(tickers, exchange, todo, r)
    requires r' == if OnExchange(tickers[k], exchange) then InsertBySymbol(r, tickers[k]) else r
    ensures SelectedSoFar(tickers, exchange, todo - {k}, r')
  {
    var x := tickers[k];
    assert KeyOf(x) == k;
    if OnExchange(x, exchange) {
      InsertMembers(r, r', x);
      SelectStepMembers(tickers, exchange, todo, k, r, r');
      SelectStepCount(tickers, exchange, todo, k, |r|, |r'|);
    } else {
      SelectStepCount(tickers, exchange, todo, k, |r|, |r'|);
    }
  }

  lemma SelectStepMembers(tickers: map<TickerKey, Ticker>, exchange: Option<string>,
                          todo: set<TickerKey>, k: TickerKey, r: seq<Ticker>, r': seq<Ticker>)
    requires KeyedBy(tickers, KeyOf) && k in tickers && OnExchange(tickers[k], exchange)
    requires forall x :: x in r <==> Holds(tickers, x) && OnExchange(x, exchange) && KeyOf(x) !in todo
    requires forall y :: y in r' <==> y in r || y == tickers[k]
    ensures forall x :: x in r' <==> Holds(tickers, x) && OnExchange(x, exchange) && KeyOf(x) !in todo - {k}
  {
    assert KeyOf(tickers[k]) == k;
  }

  lemma SelectStepCount(tickers: map<TickerKey, Ticker>, exchange: Option<string>,
                        todo: set<TickerKey>, k: TickerKey, n: nat, n': nat)
    requires k in todo && k in tickers
    requires n == |KeysOn(tickers, exchange) - todo|
    requires n' == if OnExchange(tickers[k], exchange) then n + 1 else n
    ensures n' == |KeysOn(tickers, exchange) - (todo - {k})|
  {
    var done := KeysOn(tickers, exchange) - todo;
    if OnExchange(tickers[k], exchange) {
      assert KeysOn(tickers, exchange) - (todo - {k}) == done + {k};
    } else {
      assert KeysOn(tickers, exchange) - (todo - {k}) == done;
    }
  }

  /** The contents of the two tables. */
  datatype Tables = Tables(tickers: map<TickerKey, Ticker>, ohlcv: map<CandleKey, Candle>)

  class Database {
    var tickers: map<TickerKey, Ticker>
    var ohlcv: map<CandleKey, Candle>

    /** Both tables as one value. */
    function State(): (t: Tables)
      reads this
      ensures t.tickers == tickers && t.ohlcv == ohlcv
    {
      Tables(tickers, ohlcv)
    }

    /** Every row sits under its own key: the tables hold at most one row
        per key. */
    ghost predicate Valid()
      reads this
    {
      KeyedBy(tickers, KeyOf) && forall k | k in ohlcv :: ohlcv[k].timestamp == k.timestamp
    }

    /** `Database::new` on a database that already holds these rows. */
    constructor (tickers0: map<TickerKey, Ticker>, ohlcv0: map<CandleKey, Candle>)
      requires KeyedBy(tickers0, KeyOf)
      requires forall k | k in ohlcv0 :: ohlcv0[k].timestamp == k.timestamp
      ensures Valid()
      ensures tickers == tickers0 && ohlcv == ohlcv0
    {
      tickers := tickers0;
      ohlcv := ohlcv0;
    }

    /** `get_ticker`: the row stored under (symbol, exchange), if any. */
    function GetTicker(symbol: string, exchange: string): (r: Option<Ticker>)
      reads this
      requires Valid()
      ensures r.Some? <==> TickerKey(symbol, exchange) in tickers
      ensures r.Some? ==> r.value.symbol == symbol && r.value.exchange == exchange
      ensures r.Some? ==> r.value == tickers[TickerKey(symbol, exchange)]
    {
      var k := TickerKey(symbol, exchange);
      if k in tickers then Some(tickers[k]) else None
    }

    /** `ticker_exists`: whether `get_ticker` would find a row. */
    function TickerExists(symbol: string, exchange: string): (b: bool)
      reads this
      requires Valid()
      ensures b <==> GetTicker(symbol, exchange).Some?
    {
      TickerKey(symbol, exchange) in tickers
    }

    /** `get_ticker_count`: the number of rows in the tickers table. */
    function TickerCount(): (n: nat)
      reads this
      ensures n == |tickers.Keys|
      ensures n == 0 <==> tickers == map[]
    {
      |tickers|
    }

    /** `get_ticker_by_symbol`: some row with that symbol, on whatever
        exchange; which one the engine returns first is left open. */
    method GetTickerBySymbol(symbol: string) returns (r: Option<Ticker>)
      requires Valid()
      ensures r.None? <==> forall k | k in tickers :: k.symbol != symbol
      ensures r.Some? ==> r.value.symbol == symbol && KeyOf(r.value) in tickers && tickers[KeyOf(r.value)] == r.value
    {
      if k :| k in tickers && k.symbol == symbol {
        r := Some(tickers[k]);
      } else {
        r := None;
      }
    }

    /** `get_all_tickers` and `get_tickers_by_exchange` share their query
        but for the `WHERE exchange = ?` filter: the rows of the tickers
        table, restricted to one exchange when one is given, each once and
        ordered by symbol. */
    method SelectTickers(exchange: Option<string>) returns (r: seq<Ticker>)
      requires Valid()
      ensures SortedBySymbol(r) && NoDuplicates(r)
      ensures forall x :: x in r <==> Holds(tickers, x) && OnExchange(x, exchange)
      ensures |r| == |KeysOn(tickers, exchange)|
    {
      r := [];
      var todo := tickers.Keys;
      assert KeysOn(tickers, exchange) - todo == {};
      while todo != {}
        invariant todo <= tickers.Keys
        invariant SelectedSoFar(tickers, exchange, todo, r)
        decreases todo
      {
        var k :| k in todo;
        var x := tickers[k];
        var r' := if OnExchange(x, exchange) then InsertBySymbol(r, x) else r;
        SelectStep(tickers, exchange, todo, k, r, r');
        r := r';
        todo := todo - {k};
      }
      assert KeysOn(tickers, exchange) - todo == KeysOn(tickers, exchange);
    }

    /** `get_all_tickers`: every stored ticker once, ordered by symbol. */
    method GetAllTickers() returns (r: seq<Ticker>)
      requires Valid()
      ensures SortedBySymbol(r) && NoDuplicates(r)
      ensures forall x :: x in r <==> Holds(tickers, x)
      ensures |r| == |tickers|
    {
      r := SelectTickers(None);
      assert KeysOn(tickers, None) == tickers.Keys;
    }

    /** `get_tickers_by_exchange`: exactly the stored tickers of that
        exchange, each once, ordered by symbol. */
    method GetTickersByExchange(exchange: string) returns (r: seq<Ticker>)
      requires Valid()
      ensures SortedBySymbol(r) && NoDuplicates(r)
      ensures forall x :: x in r <==> Holds(tickers, x) && x.exchange == exchange
      ensures |r| == |KeysOn(tickers, Some(exchange))|
    {
      r := SelectTickers(Some(exchange));
    }

    /** `get_prices`: the stored bars of the ticker's symbol and exchange at
        `interval` whose instant lies in the window, in ascending time. */
    method GetPrices(ticker: Ticker, interval: Interval, start: Option<Instant>, end: Option<Instant>)
      returns (r: seq<Candle>)
      requires Valid()
      ensures AscendingByTime(r)
      ensures forall c :: c in r <==>
        var k := CandleKey(ticker.symbol, ticker.exchange, interval, c.timestamp);
        k in ohlcv && ohlcv[k] == c && InWindow(c.timestamp, start, end)
    {
      r := [];
      var todo := ohlcv.Keys;
      while todo != {}
        invariant todo <= ohlcv.Keys
        invariant AscendingByTime(r)
        invariant forall c :: c in r <==>
          var k := CandleKey(ticker.symbol, ticker.exchange, interval, c.timestamp);
          k in ohlcv && ohlcv[k] == c && InWindow(c.timestamp, start, end) && k !in todo
        decreases todo
      {
        var k :| k in todo;
        var c := ohlcv[k];
        if k.symbol == ticker.symbol && k.exchange == ticker.exchange && k.interval == interval
          && InWindow(c.timestamp, start, end)
        {
          assert k == CandleKey(ticker.symbol, ticker.exchange, interval, c.timestamp);
          var r' := InsertByTime(r, c);
          InsertMembers(r, r', c);
          r := r';
        }
        todo := todo - {k};
      }
    }

    /** `upsert_tickers`: the rows go in as consecutive sub-batches of
        1000, one transaction each. Sub-batches run until one fails; those
        before it stay stored, its own rows and all later ones are not. */
    method UpsertTickers(rows: seq<Ticker>, tx: nat -> TxOutcome) returns (r: Result<nat, StoreError>)
      requires Valid()
      modifies this
      ensures Valid()
      ensures r == UpsertOutcome(|rows|, tx)
      ensures tickers == Upsert(old(tickers), rows[..StoredRows(|rows|, tx)], KeyOf)
      ensures ohlcv == old(ohlcv)
    {
      if |rows| == 0 {
        return Ok(0);
      }
      var batches := Chunks(rows, BATCH_SIZE);
      ChunkCount(rows, BATCH_SIZE);
      var total := 0;
      var i := 0;
      while i < |batches|
        invariant 0 <= i <= |batches|
        invariant forall k | 0 <= k < i :: tx(k).Committed?
        invariant total == AffectedSum(i, tx)
        invariant tickers == Upsert(old(tickers), Flatten(batches[..i]), KeyOf)
        invariant ohlcv == old(ohlcv) && Valid()
      {
        var batch := batches[i];
        // The statement's rows, staged inside the transaction.
        var staged := Stage(tickers, batch, KeyOf);
        if tx(i).Failed? {
          CommittedPrefix(rows, tx, i);
          return Err(SubBatchFailed(i));
        }
        UpsertKeyed(tickers, batch, KeyOf);
        CommitStep(old(tickers), batches, i, KeyOf);
        tickers := staged;
        total := total + tx(i).affected;
        i := i + 1;
      }
      CommittedPrefix(rows, tx, i);
      return Ok(total);
    }

    /** `upsert_prices`: the bars of one series go in as consecutive
        sub-batches of 1000 with insert-or-replace on
        (symbol, exchange, interval, timestamp). */
    method UpsertPrices(symbol: string, exchange: string, interval: Interval, prices: seq<Candle>,
                        tx: nat -> TxOutcome) returns (r: Result<nat, StoreError>)
      requires Valid()
      modifies this
      ensures Valid()
      ensures r == UpsertOutcome(|prices|, tx)
      ensures ohlcv == Upsert(old(ohlcv), prices[..StoredRows(|prices|, tx)], CandleKeyer(symbol, exchange, interval))
      ensures tickers == old(tickers)
    {
      if |prices| == 0 {
        return Ok(0);
      }
      var key := CandleKeyer(symbol, exchange, interval);
      var batches := Chunks(prices, BATCH_SIZE);
      ChunkCount(prices, BATCH_SIZE);
      var total := 0;
      var i := 0;
      while i < |batches|
        invariant 0 <= i <= |batches|
        invariant forall k | 0 <= k < i :: tx(k).Committed?
        invariant total == AffectedSum(i, tx)
        invariant ohlcv == Upsert(old(ohlcv), Flatten(batches[..i]), key)
        invariant tickers == old(tickers) && Valid()
      {
        var batch := batches[i];
        var staged := Stage(ohlcv, batch, key);
        if tx(i).Failed? {
          CommittedPrefix(prices, tx, i);
          return Err(SubBatchFailed(i));
        }
        CandlesKeyed(ohlcv, batch, symbol, exchange, interval);
        CommitStep(old(ohlcv), batches, i, key);
        ohlcv := staged;
        total := total + tx(i).affected;
        i := i + 1;
      }
      CommittedPrefix(prices, tx, i);
      return Ok(total);
    }

    /** `update_ticker`: one upsert of the metadata row built from the
        provider's SymbolInfo, so a stored country is always reset to None. */
    method UpdateTicker(info: SymbolInfo, outcome: TxOutcome) returns (r: Result<(), StoreError>)
      requires Valid()
      modifies this
      ensures Valid()
      ensures r.Ok? <==> outcome.Committed?
      ensures r.Err? ==> r.error == StatementFailed
      ensures tickers == if outcome.Committed? then old(tickers)[KeyOf(TickerOfInfo(info)) := TickerOfInfo(info)]
                         else old(tickers)
      ensures ohlcv == old(ohlcv)
    {
      if outcome.Failed? {
        return Err(StatementFailed);
      }
      var t := TickerOfInfo(info);
      tickers := tickers[KeyOf(t) := t];
      r := Ok(());
    }

    /** `update_ticker_info`: overwrites the metadata of an existing row and
        reports whether there was one; it never inserts. */
    method UpdateTickerInfo(t: Ticker) returns (updated: bool)
      requires Valid()
      modifies this
      ensures Valid()
      ensures updated <==> KeyOf(t) in old(tickers)
      ensures tickers == if updated then old(tickers)[KeyOf(t) := t] else old(tickers)
      ensures tickers.Keys == old(tickers).Keys
      ensures ohlcv == old(ohlcv)
    {
      updated := KeyOf(t) in tickers;
      if updated {
        tickers := tickers[KeyOf(t) := t];
      }
    }

    /** `delete_ticker`: removes the row under (symbol, exchange) and
        reports whether there was one. Bars of that ticker stay. */
    method DeleteTicker(symbol: string, exchange: string) returns (removed: bool)
      requires Valid()
      modifies this
      ensures Valid()
      ensures removed <==> TickerKey(symbol, exchange) in old(tickers)
      ensures tickers == old(tickers) - {TickerKey(symbol, exchange)}
      ensures ohlcv == old(ohlcv)
    {
      var k := TickerKey(symbol, exchange);
      removed := k in tickers;
      tickers := tickers - {k};
    }

    /** `delete_tickers_by_exchange`: removes every row of that exchange and
        reports how many went. */
    method DeleteTickersByExchange(exchange: string) returns (n: nat)
      requires Valid()
      modifies this
      ensures Valid()
      ensures tickers == map k | k in old(tickers) && k.exchange != exchange :: old(tickers)[k]
      ensures n == |old(tickers).Keys| - |tickers.Keys|
      ensures ohlcv == old(ohlcv)
    {
      var gone := set k | k in tickers && k.exchange == exchange;
      var kept := map k | k in tickers && k.exchange != exchange :: tickers[k];
      assert kept.Keys == tickers.Keys - gone;
      assert gone <= tickers.Keys;
      assert |tickers.Keys| == |kept.Keys| + |gone| by {
        assert tickers.Keys == kept.Keys + gone;
        assert kept.Keys * gone == {};
      }
      tickers := kept;
      n := |gone|;
    }
  }

  /** The first i + 1 sub-batches, joined, are the first i joined, then sub-batch i. */
  lemma BatchesStep<T>(batches: seq<seq<T>>, i: nat)
    requires i < |batches|
    ensures Flatten(batches[..i + 1]) == Flatten(batches[..i]) + batches[i]
  {
    assert batches[..i + 1] == batches[..i] + [batches[i]];
    FlattenConcat(batches[..i], [batches[i]]);
    assert Flatten([batches[i]]) == batches[i] + Flatten([batches[i]][1..]);
  }

  /** Committing one more sub-batch applies its rows after those before it. */
  lemma CommitStep<K, V>(table: map<K, V>, batches: seq<seq<V>>, i: nat, key: V -> K)
    requires i < |batches|
    ensures Upsert(table, Flatten(batches[..i + 1]), key) == Upsert(Upsert(table, Flatten(batches[..i]), key), batches[i], key)
  {
    BatchesStep(batches, i);
    UpsertConcat(table, Flatten(batches[..i]), batches[i], key);
  }

  /** Storing bars keeps every bar under a key with its own instant. */
  lemma {:induction false} CandlesKeyed(table: map<CandleKey, Candle>, prices: seq<Candle>,
                                        symbol: string, exchange: string, interval: Interval)
    requires forall k | k in table :: table[k].timestamp == k.timestamp
    ensures var t := Upsert(table, prices, CandleKeyer(symbol, exchange, interval));
            forall k | k in t :: t[k].timestamp == k.timestamp
    decreases |prices|
  {
    if prices != [] {
      var key := CandleKeyer(symbol, exchange, interval);
      CandlesKeyed(table[key(prices[0]) := prices[0]], prices[1..], symbol, exchange, interval);
    }
  }
}
