/** The orders the store's readers sort by: text by SQLite's BINARY
    collation (byte order of UTF-8, which is code-point order), instants as
    numbers. The readers build their results by ordered insertion. */
module Ordering {
  import opened Models

  /** a <= b in lexicographic order of code points; a proper prefix comes first. */
  predicate TextLe(a: string, b: string)
    decreases |a|
  {
    a == [] || (b != [] && (a[0] < b[0] || (a[0] == b[0] && TextLe(a[1..], b[1..]))))
  }

  lemma {:induction false} TextLeTotal(a: string, b: string)
    ensures TextLe(a, b) || TextLe(b, a)
    decreases |a|
  {
    if a != [] && b != [] && a[0] == b[0] {
      TextLeTotal(a[1..], b[1..]);
    }
  }

  lemma {:induction false} TextLeTransitive(a: string, b: string, c: string)
    requires TextLe(a, b) && TextLe(b, c)
    ensures TextLe(a, c)
    decreases |a|
  {
    if a != [] && a[0] == b[0] && b[0] == c[0] {
      TextLeTransitive(a[1..], b[1..], c[1..]);
    }
  }

  lemma {:induction false} TextLeAntisymmetric(a: string, b: string)
    requires TextLe(a, b) && TextLe(b, a)
    ensures a == b
    decreases |a|
  {
    if a != [] {
      TextLeAntisymmetric(a[1..], b[1..]);
      assert a == [a[0]] + a[1..] && b == [b[0]] + b[1..];
    }
  }

  /** Ordered by symbol (`ORDER BY symbol`); rows with equal symbols may come in any order. */
  predicate SortedBySymbol(rows: seq<Ticker>)
  {
    forall i, j | 0 <= i < j < |rows| :: TextLe(rows[i].symbol, rows[j].symbol)
  }

  /** No row of `rows` has a symbol below `low`. */
  predicate SymbolsFrom(low: string, rows: seq<Ticker>)
  {
    forall y | y in rows :: TextLe(low, y.symbol)
  }

  lemma SortedBySymbolCons(x: Ticker, rows: seq<Ticker>)
    requires SortedBySymbol(rows) && SymbolsFrom(x.symbol, rows)
    ensures SortedBySymbol([x] + rows)
  {
    var r := [x] + rows;
    forall i, j | 0 <= i < j < |r| ensures TextLe(r[i].symbol, r[j].symbol) {
      assert r[j] == rows[j - 1];
      if i > 0 { assert r[i] == rows[i - 1]; } else { assert r[j] in rows; }
    }
  }

  /** In a sorted sequence the first symbol is the least one. */
  lemma SortedBySymbolHead(rows: seq<Ticker>)
    requires rows != [] && SortedBySymbol(rows)
    ensures SymbolsFrom(rows[0].symbol, rows)
    ensures SortedBySymbol(rows[1..])
  {
    forall y | y in rows ensures TextLe(rows[0].symbol, y.symbol) {
      var k :| 0 <= k < |rows| && rows[k] == y;
      if k == 0 { TextLeTotal(y.symbol, y.symbol); }
    }
    var tail := rows[1..];
    forall i, j | 0 <= i < j < |tail| ensures TextLe(tail[i].symbol, tail[j].symbol) {
      assert tail[i] == rows[i + 1] && tail[j] == rows[j + 1];
    }
  }

  /** Inserting t into rows keeps a lower bound that both respect. */
  lemma InsertedSymbolsFrom(low: string, rows: seq<Ticker>, t: Ticker, r: seq<Ticker>)
    requires SymbolsFrom(low, rows) && TextLe(low, t.symbol)
    requires multiset(r) == multiset(rows) + multiset{t}
    ensures SymbolsFrom(low, r)
  {
    forall y | y in r ensures TextLe(low, y.symbol) {
      assert y in multiset(r);
      assert y in rows || y == t;
    }
  }

  /** Puts t in front of the first row whose symbol is not below t's. */
  function InsertBySymbol(rows: seq<Ticker>, t: Ticker): (r: seq<Ticker>)
    requires SortedBySymbol(rows)
    ensures SortedBySymbol(r)
    ensures multiset(r) == multiset(rows) + multiset{t}
    decreases |rows|
  {
    if rows == [] then [t]
    else
      SortedBySymbolHead(rows);
      if TextLe(t.symbol, rows[0].symbol) then
        assert SymbolsFrom(t.symbol, rows) by {
          forall y | y in rows ensures TextLe(t.symbol, y.symbol) {
            TextLeTransitive(t.symbol, rows[0].symbol, y.symbol);
          }
        }
        SortedBySymbolCons(t, rows);
        [t] + rows
      else
        TextLeTotal(t.symbol, rows[0].symbol);
        var tail := InsertBySymbol(rows[1..], t);
        InsertedSymbolsFrom(rows[0].symbol, rows[1..], t, tail);
        SortedBySymbolCons(rows[0], tail);
        assert rows == [rows[0]] + rows[1..];
        [rows[0]] + tail
  }

  /** Strictly ascending by timestamp (`ORDER BY timestamp ASC` over rows
      whose timestamps differ). */
  predicate AscendingByTime(rows: seq<Candle>)
  {
    forall i, j | 0 <= i < j < |rows| :: rows[i].timestamp < rows[j].timestamp
  }

  /** Every row of `rows` is later than `low`. */
  predicate LaterThan(low: Instant, rows: seq<Candle>)
  {
    forall y | y in rows :: low < y.timestamp
  }

  lemma AscendingByTimeCons(x: Candle, rows: seq<Candle>)
    requires AscendingByTime(rows) && LaterThan(x.timestamp, rows)
    ensures AscendingByTime([x] + rows)
  {
    var r := [x] + rows;
    forall i, j | 0 <= i < j < |r| ensures r[i].timestamp < r[j].timestamp {
      assert r[j] == rows[j - 1];
      if i > 0 { assert r[i] == rows[i - 1]; } else { assert r[j] in rows; }
    }
  }

  lemma AscendingByTimeHead(rows: seq<Candle>)
    requires rows != [] && AscendingByTime(rows)
    ensures LaterThan(rows[0].timestamp, rows[1..])
    ensures AscendingByTime(rows[1..])
  {
    var tail := rows[1..];
    forall y | y in tail ensures rows[0].timestamp < y.timestamp {
      var k :| 0 <= k < |tail| && tail[k] == y;
      assert rows[k + 1] == y;
    }
    forall i, j | 0 <= i < j < |tail| ensures tail[i].timestamp < tail[j].timestamp {
      assert tail[i] == rows[i + 1] && tail[j] == rows[j + 1];
    }
  }

  /** Inserting c into rows keeps a lower bound that both respect. */
  lemma InsertedLaterThan(low: Instant, rows: seq<Candle>, c: Candle, r: seq<Candle>)
    requires LaterThan(low, rows) && low < c.timestamp
    requires multiset(r) == multiset(rows) + multiset{c}
    ensures LaterThan(low, r)
  {
    forall y | y in r ensures low < y.timestamp {
      assert y in multiset(r);
      assert y in rows || y == c;
    }
  }

  /** Puts c in front of the first row with a later timestamp. */
  function InsertByTime(rows: seq<Candle>, c: Candle): (r: seq<Candle>)
    requires AscendingByTime(rows)
    requires forall x | x in rows :: x.timestamp != c.timestamp
    ensures AscendingByTime(r)
    ensures multiset(r) == multiset(rows) + multiset{c}
    decreases |rows|
  {
    if rows == [] then [c]
    else
      AscendingByTimeHead(rows);
      assert rows[0] in rows;
      if c.timestamp < rows[0].timestamp then
        assert LaterThan(c.timestamp, rows) by {
          forall y | y in rows ensures c.timestamp < y.timestamp {
            if y != rows[0] {
              var k :| 0 <= k < |rows| && rows[k] == y;
              assert y in rows[1..] by { assert rows[1..][k - 1] == y; }
            }
          }
        }
        AscendingByTimeCons(c, rows);
        [c] + rows
      else
        var tail := InsertByTime(rows[1..], c);
        InsertedLaterThan(rows[0].timestamp, rows[1..], c, tail);
        AscendingByTimeCons(rows[0], tail);
        assert rows == [rows[0]] + rows[1..];
        [rows[0]] + tail
  }
}
