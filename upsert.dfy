/** The two table writes the store performs in bulk, stated on values: a
    keyed upsert of a row sequence into a map (later rows overwrite earlier
    ones with the same key), and the outcome of running a write as
    consecutive sub-batches of 1000 rows, one transaction each, that stops at
    the first transaction that fails. */
module Upserts {
  import opened Wrappers
  import opened Batches

  /** Rows per transaction in `upsert_tickers` and `upsert_prices`. */
  const BATCH_SIZE: nat := 1000

  /** What the SQL engine does with one sub-batch's transaction: it commits
      and reports a number of affected rows, or some step of it (begin,
      execute, commit) fails and none of its rows are stored. */
  datatype TxOutcome = Committed(affected: nat) | Failed

  datatype StoreError =
    | SubBatchFailed(index: nat)   // the transaction of sub-batch `index` failed
    | StatementFailed              // a single-statement write failed

  /** Each row, in order, is written under its key; a later row replaces
      an earlier one with the same key. */
  function Upsert<K, V>(table: map<K, V>, rows: seq<V>, key: V -> K): map<K, V>
    decreases |rows|
  {
    if rows == [] then table else Upsert(table[key(rows[0]) := rows[0]], rows[1..], key)
  }

  /** Writing a + b is writing a, then b. */
  lemma {:induction false} UpsertConcat<K, V>(table: map<K, V>, a: seq<V>, b: seq<V>, key: V -> K)
    ensures Upsert(table, a + b, key) == Upsert(Upsert(table, a, key), b, key)
    decreases |a|
  {
    if a != [] {
      assert (a + b)[1..] == a[1..] + b;
      UpsertConcat(table[key(a[0]) := a[0]], a[1..], b, key);
    } else {
      assert a + b == b;
    }
  }

  /** Writing one more row sets its key. */
  lemma UpsertSnoc<K, V>(table: map<K, V>, a: seq<V>, x: V, key: V -> K)
    ensures Upsert(table, a + [x], key) == Upsert(table, a, key)[key(x) := x]
  {
    UpsertConcat(table, a, [x], key);
    assert [x][1..] == [];
  }

  /** A key that no row carries keeps its old presence and value. */
  lemma {:induction false} UpsertOthersUnchanged<K, V>(table: map<K, V>, rows: seq<V>, key: V -> K, k: K)
    requires forall j | 0 <= j < |rows| :: key(rows[j]) != k
    ensures k in Upsert(table, rows, key) <==> k in table
    ensures k in table ==> Upsert(table, rows, key)[k] == table[k]
    decreases |rows|
  {
    if rows != [] {
      assert forall j | 0 <= j < |rows[1..]| :: key(rows[1..][j]) != k by {
        forall j | 0 <= j < |rows[1..]| ensures key(rows[1..][j]) != k {
          assert rows[1..][j] == rows[j + 1];
        }
      }
      UpsertOthersUnchanged(table[key(rows[0]) := rows[0]], rows[1..], key, k);
    }
  }

  /** The last row with a given key is what the table holds under it. */
  lemma {:induction false} UpsertLastWins<K, V>(table: map<K, V>, rows: seq<V>, key: V -> K, i: nat)
    requires i < |rows|
    requires forall j | i < j < |rows| :: key(rows[j]) != key(rows[i])
    ensures key(rows[i]) in Upsert(table, rows, key)
    ensures Upsert(table, rows, key)[key(rows[i])] == rows[i]
    decreases |rows|
  {
    var t' := table[key(rows[0]) := rows[0]];
    if i == 0 {
      UpsertOthersUnchanged(t', rows[1..], key, key(rows[0])) by {
        forall j | 0 <= j < |rows[1..]| ensures key(rows[1..][j]) != key(rows[0]) {
          assert rows[1..][j] == rows[j + 1];
        }
      }
    } else {
      assert rows[1..][i - 1] == rows[i];
      assert forall j | i - 1 < j < |rows[1..]| :: key(rows[1..][j]) != key(rows[1..][i - 1]) by {
        forall j | i - 1 < j < |rows[1..]| ensures key(rows[1..][j]) != key(rows[i]) {
          assert rows[1..][j] == rows[j + 1];
        }
      }
      UpsertLastWins(t', rows[1..], key, i - 1);
    }
  }

  /** The keys after an upsert are the old keys and the rows' keys. */
  lemma {:induction false} UpsertKeys<K, V>(table: map<K, V>, rows: seq<V>, key: V -> K)
    ensures Upsert(table, rows, key).Keys == table.Keys + set j | 0 <= j < |rows| :: key(rows[j])
    decreases |rows|
  {
    if rows != [] {
      UpsertKeys(table[key(rows[0]) := rows[0]], rows[1..], key);
      var tail := set j | 0 <= j < |rows[1..]| :: key(rows[1..][j]);
      var all := set j | 0 <= j < |rows| :: key(rows[j]);
      assert all == {key(rows[0])} + tail by {
        forall k | k in all ensures k in {key(rows[0])} + tail {
          var j :| 0 <= j < |rows| && key(rows[j]) == k;
          if j > 0 { assert rows[1..][j - 1] == rows[j]; }
        }
        forall k | k in tail ensures k in all {
          var j :| 0 <= j < |rows[1..]| && key(rows[1..][j]) == k;
          assert rows[1..][j] == rows[j + 1];
        }
      }
    }
  }

  /** Every row sits under its own key. */
  ghost predicate KeyedBy<K, V>(table: map<K, V>, key: V -> K)
  {
    forall k | k in table :: key(table[k]) == k
  }

  /** An upsert keeps a table keyed: at most one row per key, found under it. */
  lemma {:induction false} UpsertKeyed<K, V>(table: map<K, V>, rows: seq<V>, key: V -> K)
    requires KeyedBy(table, key)
    ensures KeyedBy(Upsert(table, rows, key), key)
    decreases |rows|
  {
    if rows != [] {
      UpsertKeyed(table[key(rows[0]) := rows[0]], rows[1..], key);
    }
  }

  /** Writing rows the table already holds, each under its own key, changes nothing. */
  lemma {:induction false} UpsertStored<K, V>(table: map<K, V>, rows: seq<V>, key: V -> K)
    requires forall j | 0 <= j < |rows| :: key(rows[j]) in table && table[key(rows[j])] == rows[j]
    ensures Upsert(table, rows, key) == table
    decreases |rows|
  {
    if rows != [] {
      assert table[key(rows[0]) := rows[0]] == table;
      assert forall j | 0 <= j < |rows[1..]| :: rows[1..][j] == rows[j + 1];
      UpsertStored(table, rows[1..], key);
    }
  }

  /** Upserting the same rows twice is upserting them once. */
  lemma UpsertIdempotent<K, V>(table: map<K, V>, rows: seq<V>, key: V -> K)
    ensures Upsert(Upsert(table, rows, key), rows, key) == Upsert(table, rows, key)
  {
    var once := Upsert(table, rows, key);
    var twice := Upsert(once, rows, key);
    UpsertKeys(table, rows, key);
    UpsertKeys(once, rows, key);
    forall k | k in once ensures twice[k] == once[k] {
      if j :| 0 <= j < |rows| && key(rows[j]) == k {
        var last := LastWith(rows, key, k, j);
        UpsertLastWins(table, rows, key, last);
        UpsertLastWins(once, rows, key, last);
      } else {
        UpsertOthersUnchanged(once, rows, key, k);
      }
    }
  }

  /** The rows of one statement applied in turn to a copy of the table,
      as the transaction stages them before it commits. */
  method Stage<K, V>(table: map<K, V>, batch: seq<V>, key: V -> K) returns (staged: map<K, V>)
    ensures staged == Upsert(table, batch, key)
  {
    staged := table;
    for j := 0 to |batch|
      invariant staged == Upsert(table, batch[..j], key)
    {
      UpsertSnoc(table, batch[..j], batch[j], key);
      assert batch[..j + 1] == batch[..j] + [batch[j]];
      staged := staged[key(batch[j]) := batch[j]];
    }
    assert batch[..|batch|] == batch;
  }

  /** The index of the last row carrying key k, given that row i carries it. */
  ghost function LastWith<K, V>(rows: seq<V>, key: V -> K, k: K, i: nat): (last: nat)
    requires i < |rows| && key(rows[i]) == k
    ensures i <= last < |rows| && key(rows[last]) == k
    ensures forall j | last < j < |rows| :: key(rows[j]) != k
    decreases |rows| - i
  {
    if exists j | i < j < |rows| :: key(rows[j]) == k then
      var j :| i < j < |rows| && key(rows[j]) == k;
      LastWith(rows, key, k, j)
    else i
  }

  /** The first of sub-batches 0 .. m-1 whose transaction fails, or m when
      they all commit. */
  function FirstFailure(m: nat, tx: nat -> TxOutcome): (p: nat)
    ensures p <= m
    ensures forall k | 0 <= k < p :: tx(k).Committed?
    ensures p < m ==> tx(p).Failed?
  {
    if m == 0 then 0
    else
      var q := FirstFailure(m - 1, tx);
      if q < m - 1 then q else if tx(m - 1).Failed? then m - 1 else m
  }

  /** The affected counts of sub-batches 0 .. p-1, added up. */
  function AffectedSum(p: nat, tx: nat -> TxOutcome): nat
    requires forall k | 0 <= k < p :: tx(k).Committed?
  {
    if p == 0 then 0 else AffectedSum(p - 1, tx) + tx(p - 1).affected
  }

  /** The result of a bulk upsert of n rows: Ok with the summed affected
      counts when every sub-batch commits (Ok(0) for no rows), otherwise the
      error of the first sub-batch that fails. */
  function UpsertOutcome(n: nat, tx: nat -> TxOutcome): (r: Result<nat, StoreError>)
    ensures n == 0 ==> r == Ok(0)
    ensures r.Ok? <==> forall k | 0 <= k < DivCeil(n, BATCH_SIZE) :: tx(k).Committed?
    ensures r.Ok? ==> r.value == AffectedSum(DivCeil(n, BATCH_SIZE), tx)
    ensures r.Err? ==> exists p | 0 <= p < DivCeil(n, BATCH_SIZE) :: r.error == SubBatchFailed(p) && tx(p).Failed?
  {
    var m := DivCeil(n, BATCH_SIZE);
    var p := FirstFailure(m, tx);
    if p == m then Ok(AffectedSum(m, tx)) else Err(SubBatchFailed(p))
  }

  /** How many of the n rows, from the front, are stored after a bulk
      upsert: all of them on success; otherwise the whole sub-batches before
      the one that failed. */
  function StoredRows(n: nat, tx: nat -> TxOutcome): (s: nat)
    ensures s <= n
    ensures s == n <==> UpsertOutcome(n, tx).Ok?
    ensures s < n ==> s == FirstFailure(DivCeil(n, BATCH_SIZE), tx) * BATCH_SIZE
  {
    var m := DivCeil(n, BATCH_SIZE);
    var p := FirstFailure(m, tx);
    if p < m then
      MulLe(p, m - 1, BATCH_SIZE);
      MulPred(m, BATCH_SIZE);
      p * BATCH_SIZE
    else n
  }

  /** A single row is one sub-batch: it is stored, and its count reported,
      exactly when that transaction commits. */
  lemma UpsertOne<K, V>(table: map<K, V>, x: V, key: V -> K, tx: nat -> TxOutcome)
    ensures UpsertOutcome(1, tx) == if tx(0).Committed? then Ok(tx(0).affected) else Err(SubBatchFailed(0))
    ensures Upsert(table, [x][..StoredRows(1, tx)], key) == if tx(0).Committed? then table[key(x) := x] else table
  {
    assert DivCeil(1, BATCH_SIZE) == 1;
    assert FirstFailure(1, tx) == if tx(0).Committed? then 1 else 0;
    assert [x][1..] == [];
  }

  /** Where a bulk upsert of rows stops: when sub-batches 0 .. i-1 commit
      and sub-batch i fails (or there is none), the stored rows are those of
      the first i sub-batches, and the result is that of UpsertOutcome. */
  lemma {:induction false} CommittedPrefix<T>(rows: seq<T>, tx: nat -> TxOutcome, i: nat)
    requires i <= |Chunks(rows, BATCH_SIZE)|
    requires forall k | 0 <= k < i :: tx(k).Committed?
    requires i < |Chunks(rows, BATCH_SIZE)| ==> tx(i).Failed?
    ensures Flatten(Chunks(rows, BATCH_SIZE)[..i]) == rows[..StoredRows(|rows|, tx)]
    ensures UpsertOutcome(|rows|, tx) ==
      if i == |Chunks(rows, BATCH_SIZE)| then Ok(AffectedSum(i, tx)) else Err(SubBatchFailed(i))
  {
    var m := DivCeil(|rows|, BATCH_SIZE);
    ChunkCount(rows, BATCH_SIZE);
    assert FirstFailure(m, tx) == i;
    FlattenChunksPrefix(rows, BATCH_SIZE, i);
    if i < m {
      MulLe(i, m - 1, BATCH_SIZE);
      MulPred(m, BATCH_SIZE);
    }
  }
}
