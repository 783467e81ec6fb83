/** The columnar form of a ticker list, src/utils/format.rs: nine parallel
    nullable columns under a fixed schema, and the conversions between rows
    and columns. Arrow's arrays are modelled as sequences of optional
    values; the Parquet writer only as the sequence of batches it is given. */
module Format {
  import opened Wrappers
  import opened Models
  import opened Batches

  datatype DataType = Utf8 | Int64

  datatype Field = Field(name: string, dataType: DataType, nullable: bool)

  /** An Arrow column: an entry per row, None where the entry is null. */
  datatype Column =
    | StringColumn(strings: seq<Option<string>>)
    | IntColumn(ints: seq<Option<i64>>)

  datatype RecordBatch = RecordBatch(schema: seq<Field>, columns: seq<Column>, numRows: nat)

  /** The nine fields of the tickers schema, in column order. */
  function TickerSchema(): (s: seq<Field>)
    ensures |s| == 9
    ensures forall j | 0 <= j < 9 :: s[j].nullable <==> j >= 2
    ensures forall j | 0 <= j < 9 :: s[j].dataType == Utf8 <==> j != 8
    ensures [s[0].name, s[1].name, s[2].name, s[3].name, s[4].name, s[5].name, s[6].name, s[7].name, s[8].name]
         == ["symbol", "exchange", "description", "currency", "country", "market_type", "industry", "sector", "founded"]
  {
    [ Field("symbol", Utf8, false),
      Field("exchange", Utf8, false),
      Field("description", Utf8, true),
      Field("currency", Utf8, true),
      Field("country", Utf8, true),
      Field("market_type", Utf8, true),
      Field("industry", Utf8, true),
      Field("sector", Utf8, true),
      Field("founded", Int64, true) ]
  }

  function ColumnLength(c: Column): nat
  {
    match c
    case StringColumn(xs) => |xs|
    case IntColumn(xs) => |xs|
  }

  /** Whether a column holds a null entry. */
  predicate HasNull(c: Column)
  {
    match c
    case StringColumn(xs) => exists i | 0 <= i < |xs| :: xs[i].None?
    case IntColumn(xs) => exists i | 0 <= i < |xs| :: xs[i].None?
  }

  /** A record batch agrees with its schema: one column per field, each of
      the field's type, with an entry per row, and no null in a column the
      schema declares non-nullable. */
  predicate MatchesSchema(b: RecordBatch)
  {
    && |b.columns| == |b.schema|
    && forall j | 0 <= j < |b.columns| ::
         && (b.columns[j].StringColumn? <==> b.schema[j].dataType == Utf8)
         && ColumnLength(b.columns[j]) == b.numRows
         && (!b.schema[j].nullable ==> !HasNull(b.columns[j]))
  }

  /** What `from_batch` can read without panicking: at least nine columns,
      eight of strings and then one of integers, each with an entry per row. */
  predicate Readable(b: RecordBatch)
  {
    && |b.columns| >= 9
    && (forall j | 0 <= j < 8 :: b.columns[j].StringColumn?)
    && b.columns[8].IntColumn?
    && forall j | 0 <= j < 9 :: ColumnLength(b.columns[j]) == b.numRows
  }

  /** `to_batch`: a column per field, the i-th entry of each taken from the
      i-th ticker; an absent optional field becomes a null entry. */
  function ToBatch(tickers: seq<Ticker>): (b: RecordBatch)
    ensures b.schema == TickerSchema() && b.numRows == |tickers|
    ensures MatchesSchema(b) && Readable(b)
  {
    var n := |tickers|;
    var b := RecordBatch(TickerSchema(), [
      StringColumn(seq(n, i requires 0 <= i < n => Some(tickers[i].symbol))),
      StringColumn(seq(n, i requires 0 <= i < n => Some(tickers[i].exchange))),
      StringColumn(seq(n, i requires 0 <= i < n => tickers[i].description)),
      StringColumn(seq(n, i requires 0 <= i < n => tickers[i].currency)),
      StringColumn(seq(n, i requires 0 <= i < n => tickers[i].country)),
      StringColumn(seq(n, i requires 0 <= i < n => tickers[i].marketType)),
      StringColumn(seq(n, i requires 0 <= i < n => tickers[i].industry)),
      StringColumn(seq(n, i requires 0 <= i < n => tickers[i].sector)),
      IntColumn(seq(n, i requires 0 <= i < n => tickers[i].founded))], n);
    assert !HasNull(b.columns[0]) && !HasNull(b.columns[1]);
    b
  }

  /** Entry i of string column j, None when it is null. */
  function StringAt(b: RecordBatch, j: nat, i: nat): Option<string>
  {
    if j < |b.columns| && b.columns[j].StringColumn? && i < |b.columns[j].strings| then b.columns[j].strings[i] else None
  }

  /** Entry i of integer column j, None when it is null. */
  function IntAt(b: RecordBatch, j: nat, i: nat): Option<i64>
  {
    if j < |b.columns| && b.columns[j].IntColumn? && i < |b.columns[j].ints| then b.columns[j].ints[i] else None
  }

  /** The value read from a required column: a null entry reads as the empty string. */
  function Required(x: Option<string>): string
  {
    if x.Some? then x.value else ""
  }

  /** Ticker i of a batch, built from entry i of every column. */
  function RowAt(b: RecordBatch, i: nat): Ticker
  {
    Ticker(Required(StringAt(b, 0, i)), Required(StringAt(b, 1, i)),
           StringAt(b, 2, i), StringAt(b, 3, i), StringAt(b, 4, i), StringAt(b, 5, i),
           StringAt(b, 6, i), StringAt(b, 7, i), IntAt(b, 8, i))
  }

  /** The rows of a batch, in order. */
  function Rows(b: RecordBatch): (ts: seq<Ticker>)
    ensures |ts| == b.numRows
    ensures forall i | 0 <= i < b.numRows :: ts[i] == RowAt(b, i)
  {
    seq(b.numRows, i requires 0 <= i < b.numRows => RowAt(b, i))
  }

  /** `from_batch`: one ticker per row; a null optional entry becomes
      None and any other entry Some of its value. */
  method FromBatch(b: RecordBatch) returns (tickers: seq<Ticker>)
    requires Readable(b)
    ensures tickers == Rows(b)
  {
    var cols := b.columns;
    tickers := [];
    for i := 0 to b.numRows
      invariant |tickers| == i
      invariant forall k | 0 <= k < i :: tickers[k] == RowAt(b, k)
    {
      var description := if cols[2].strings[i].None? then None else Some(cols[2].strings[i].value);
      var currency := if cols[3].strings[i].None? then None else Some(cols[3].strings[i].value);
      var country := if cols[4].strings[i].None? then None else Some(cols[4].strings[i].value);
      var marketType := if cols[5].strings[i].None? then None else Some(cols[5].strings[i].value);
      var industry := if cols[6].strings[i].None? then None else Some(cols[6].strings[i].value);
      var sector := if cols[7].strings[i].None? then None else Some(cols[7].strings[i].value);
      var founded := if cols[8].ints[i].None? then None else Some(cols[8].ints[i].value);
      tickers := tickers + [Ticker(Required(cols[0].strings[i]), Required(cols[1].strings[i]),
                                   description, currency, country, marketType, industry, sector, founded)];
    }
  }

  /** Reading back a batch built from tickers gives the tickers. */
  lemma RowsOfToBatch(tickers: seq<Ticker>)
    ensures Rows(ToBatch(tickers)) == tickers
  {
    var b := ToBatch(tickers);
    forall i | 0 <= i < |tickers| ensures RowAt(b, i) == tickers[i] {
      assert StringAt(b, 0, i) == Some(tickers[i].symbol);
      assert StringAt(b, 1, i) == Some(tickers[i].exchange);
    }
  }

  /** Building a batch from the rows of a batch under the tickers schema
      gives that batch back. */
  lemma ToBatchOfRows(b: RecordBatch)
    requires b.schema == TickerSchema() && MatchesSchema(b)
    ensures ToBatch(Rows(b)) == b
  {
    var b' := ToBatch(Rows(b));
    var n := b.numRows;
    forall j | 0 <= j < 9 ensures b'.columns[j] == b.columns[j] {
      if j < 8 {
        var xs := b.columns[j].strings;
        forall i | 0 <= i < n ensures b'.columns[j].strings[i] == xs[i] {
          assert StringAt(b, j, i) == xs[i];
        }
      } else {
        forall i | 0 <= i < n ensures b'.columns[8].ints[i] == b.columns[8].ints[i] {
          assert IntAt(b, 8, i) == b.columns[8].ints[i];
        }
      }
    }
  }

  /** `save_parquet_batched`: nothing for no tickers; otherwise one batch per
      consecutive chunk of `batch_size` tickers, in order. */
  method SaveParquetBatched(tickers: seq<Ticker>, batchSize: nat) returns (written: seq<RecordBatch>)
    requires tickers == [] || batchSize > 0
    ensures tickers == [] ==> written == []
    ensures tickers != [] ==>
      && |written| == |Chunks(tickers, batchSize)| == DivCeil(|tickers|, batchSize)
      && (forall k | 0 <= k < |written| :: written[k] == ToBatch(Chunks(tickers, batchSize)[k]))
    ensures Flatten(seq(|written|, k requires 0 <= k < |written| => Rows(written[k]))) == tickers
  {
    written := [];
    if tickers == [] {
      return;
    }
    var chunks := Chunks(tickers, batchSize);
    for c := 0 to |chunks|
      invariant |written| == c
      invariant forall k | 0 <= k < c :: written[k] == ToBatch(chunks[k])
    {
      written := written + [ToBatch(chunks[c])];
    }
    ChunkCount(tickers, batchSize);
    ChunksShape(tickers, batchSize);
    RowsOfBatches(chunks, written);
  }

  /** Reading the rows back from the batches of a list of chunks gives the chunks. */
  lemma RowsOfBatches(chunks: seq<seq<Ticker>>, written: seq<RecordBatch>)
    requires |written| == |chunks|
    requires forall k | 0 <= k < |written| :: written[k] == ToBatch(chunks[k])
    ensures seq(|written|, k requires 0 <= k < |written| => Rows(written[k])) == chunks
  {
    var rows := seq(|written|, k requires 0 <= k < |written| => Rows(written[k]));
    forall k | 0 <= k < |chunks| ensures rows[k] == chunks[k] {
      RowsOfToBatch(chunks[k]);
    }
  }
}
