/**
 The undo log and the scanners together: for a printed INSERT the keys the scan finds are those of
 the rows the statement stores, as the store itself computes them, so recording the scanned keys is
 enough to run it.
 */
module UndoInsert {
  import opened Collections
  import opened SqlInsert
  import opened SqlPrint
  import SqlText
  import KeyColumn = RowKey
  import Undo = UndoLogStore

  type Value = KeyColumn.Value

  /** The columns of a row as the statement writes them; the database evaluates other code itself. */
  function RowOf(columns: seq<string>, row: seq<Expr>, args: seq<Value>, at: nat): map<string, Value>
    requires |row| == |columns| && forall i, j | 0 <= i < j < |columns| :: columns[i] != columns[j]
  {
    map i | 0 <= i < |columns| :: columns[i] := WrittenAt(row, i, args, at)
  }

  /** The key column of that row is the key of the printed row. */
  lemma StoredKey(keyColumns: seq<string>, columns: seq<string>, row: seq<Expr>, args: seq<Value>, at: nat)
    requires ValidColumns(keyColumns, columns) && ValidRow(keyColumns, columns, row)
    ensures KeyColumn.Eval(KeyColumn.KeyExpression(keyColumns), RowOf(columns, row, args, at)) ==
            Some(WrittenKey(keyColumns, columns, row, args, at))
  {
    hide KeyColumn.Eval, KeyColumn.KeyExpression, KeyColumn.EncodeKey, WrittenAt, Position, SqlPrint.Name, ValidExpr;
    var values := RowOf(columns, row, args, at);
    forall k | 0 <= k < |keyColumns|
      ensures keyColumns[k] in values &&
              values[keyColumns[k]] == WrittenAt(row, Position(columns, keyColumns[k]), args, at)
    {
      assert columns[Position(columns, keyColumns[k])] == keyColumns[k];
    }
    KeyColumn.MaterialisedKeyAgrees(keyColumns, values);
    assert seq(|keyColumns|, i requires 0 <= i < |keyColumns| => values[keyColumns[i]])
        == seq(|keyColumns|, k requires 0 <= k < |keyColumns| => WrittenAt(row, Position(columns, keyColumns[k]), args,
          at));
  }

  /** `stored` are rows the statement stores: their keys are what the key column says. */
  ghost predicate Stores(keyColumns: seq<string>, columns: seq<string>, rows: seq<seq<Expr>>, args: seq<Value>,
                         stored: Undo.Snapshot)
    requires ValidColumns(keyColumns, columns) && forall i | 0 <= i < |rows| :: ValidRow(keyColumns, columns, rows[i])
  {
    && |stored| == |rows|
    && forall i | 0 <= i < |rows| :: |rows[i]| == |columns| &&
         KeyColumn.Eval(KeyColumn.KeyExpression(keyColumns), RowOf(columns, rows[i], args, AskedRows(rows[..i]))) ==
           Some(stored[i].0)
  }

  lemma {:induction false} WrittenKeysAt(keyColumns: seq<string>, columns: seq<string>, rows: seq<seq<Expr>>,
                                         args: seq<Value>, at: nat)
    requires ValidColumns(keyColumns, columns) && forall i | 0 <= i < |rows| :: ValidRow(keyColumns, columns, rows[i])
    ensures |WrittenKeys(keyColumns, columns, rows, args, at)| == |rows|
    ensures forall i | 0 <= i < |rows| ::
              WrittenKeys(keyColumns, columns, rows, args, at)[i] ==
                WrittenKey(keyColumns, columns, rows[i], args, at + AskedRows(rows[..i]))
    decreases |rows|
  {
    hide WrittenKey, ValidColumns, ValidRow, AskedIn, AskedRows;
    if rows != [] {
      WrittenKeysAt(keyColumns, columns, rows[1..], args, at + AskedIn(rows[0]));
      AskedFirst(rows, 0);
      forall i | 0 < i < |rows|
        ensures WrittenKeys(keyColumns, columns, rows, args, at)[i] ==
                WrittenKey(keyColumns, columns, rows[i], args, at + AskedRows(rows[..i]))
      {
        AskedFirst(rows, i - 1);
      }
    }
  }

  /** What is read is what is written, if everything is in its place. */
  lemma ReadAsWritten(keyColumns: seq<string>, columns: seq<string>, rows: seq<seq<Expr>>, args: seq<Value>,
                      found: Result<seq<string>>)
    requires ValidColumns(keyColumns, columns) && forall i | 0 <= i < |rows| :: ValidRow(keyColumns, columns, rows[i])
    requires ReadAs(keyColumns, columns, rows, args, found)
    requires AllInPlace(keyColumns, columns, rows) && AskedRows(rows) <= |args|
    ensures found == Ok(WrittenKeys(keyColumns, columns, rows, args, 0))
  {
    hide ValidColumns, ValidRow, ReadableRows, Unmoved, AllInPlace, RowKeysOf, WrittenKeys, FirstUnreadable;
    InPlaceIsRead(keyColumns, columns, rows, args);
    SameKeysIff(keyColumns, columns, rows, args, 0, 0);
  }

  /** The keys found in the text are those of the inserted rows, one by one. */
  lemma ScanDelivers(keyColumns: seq<string>, columns: seq<string>, rows: seq<seq<Expr>>, args: seq<Value>,
                     found: Result<seq<string>>,
                     stored: Undo.Snapshot)
    requires ValidColumns(keyColumns, columns) && forall i | 0 <= i < |rows| :: ValidRow(keyColumns, columns, rows[i])
    requires ReadAs(keyColumns, columns, rows, args, found)
    requires AllInPlace(keyColumns, columns, rows) && AskedRows(rows) <= |args|
    requires Stores(keyColumns, columns, rows, args, stored)
    ensures found.Ok? && |found.value| == |stored| && forall i | 0 <= i < |stored| :: found.value[i] == stored[i].0
    ensures forall table, guard, t :: (set k | k in found.value) == Undo.Insert(table, stored, guard).Keys(t)
  {
    hide ValidColumns, ValidRow, ReadAs, AllInPlace, WrittenKeys, WrittenKey, RowOf, KeyColumn.Eval,
         KeyColumn.KeyExpression, AskedRows;
    ReadAsWritten(keyColumns, columns, rows, args, found);
    WrittenKeysAt(keyColumns, columns, rows, args, 0);
    forall i | 0 <= i < |stored| ensures found.value[i] == stored[i].0 {
      assert ValidRow(keyColumns, columns, rows[i]);
      StoredKey(keyColumns, columns, rows[i], args, AskedRows(rows[..i]));
    }
  }

  /** Once the scanned keys are recorded the statement may run, in whole or in part. */
  lemma ScannedInsertSafe(db: Undo.Db, base: Undo.Tables, j: Undo.JournalKey, keys: seq<string>, stored: Undo.Snapshot,
                          guard: Undo.Table -> bool)
    requires Undo.Recoverable(db, base) && j in db.journal
    requires |keys| == |stored| && forall i | 0 <= i < |stored| :: keys[i] == stored[i].0
    requires forall k | k in keys :: Undo.Recorded(db, j.tx, j.table, k)
    ensures Undo.Safe(db, Undo.Mutate(db, Undo.Insert(j.table, stored, guard)), base)
  {
    Undo.MutationSafe(db, base, j, Undo.Insert(j.table, stored, guard));
  }

  /** The INSERT branch of `mutationKeys`, from the text of an INSERT ... VALUES. */
  method ValuesKeys(schemas: map<string, seq<string>>, table: string, columns: seq<string>, rows: seq<seq<Expr>>,
                    args: seq<Value>,
                    ghost m: Undo.Mutation, ghost t: Undo.Table) returns (keys: seq<string>)
    requires table in schemas && SqlPrint.Name(table) && ValidColumns(schemas[table], columns) && columns != []
    requires rows != [] && forall i | 0 <= i < |rows| :: ValidRow(schemas[table], columns, rows[i])
    requires AllInPlace(schemas[table], columns, rows) && AskedRows(rows) <= |args|
    requires m.Insert? && Stores(schemas[table], columns, rows, args, m.rows)
    ensures forall k :: k in keys <==> k in m.Keys(t)
  {
    hide InsertKeysOf, ShowInsert, Join, Rendered, ReadAs, AllInPlace, Stores, ValidColumns, ValidRow,
         Undo.Mutation.Keys, SqlPrint.Name;
    var query := ShowInsert(table, columns, "VALUES " + Join(Rendered(rows)));
    var found := InsertKeys(schemas, table, query, args);
    InsertValuesKeys(table, schemas[table], columns, rows, args);
    ScanDelivers(schemas[table], columns, rows, args, found, m.rows);
    keys := found.value;
    assert m == Undo.Insert(m.table, m.rows, m.guard);
    assert (set k | k in keys) == m.Keys(t);
  }

  /** And of an INSERT ... SELECT of one row, whose condition is the guard of the mutation. */
  method SelectKeys(schemas: map<string, seq<string>>, table: string, columns: seq<string>, row: seq<Expr>,
                    condition: string, args: seq<Value>,
                    ghost m: Undo.Mutation, ghost t: Undo.Table) returns (keys: seq<string>)
    requires table in schemas && SqlPrint.Name(table) && ValidColumns(schemas[table], columns)
    requires ValidRow(schemas[table], columns, row) && SqlText.Trimmed(condition)
    requires forall i :: !SqlText.KeywordAt(Join(ShowAll(row)), "WHERE", i)
    requires condition != "" ==> SqlText.Read(SqlText.START, Join(ShowAll(row)), true) == SqlText.START
    requires AllInPlace(schemas[table], columns, [row]) && AskedRows([row]) <= |args|
    requires m.Insert? && Stores(schemas[table], columns, [row], args, m.rows)
    ensures forall k :: k in keys <==> k in m.Keys(t)
  {
    hide InsertKeysOf, ShowInsert, ShowSelect, Join, ReadAs, AllInPlace, Stores, ValidColumns, ValidRow,
         Undo.Mutation.Keys, SqlPrint.Name,
         SqlText.KeywordAt, SqlText.Read, SqlText.Trimmed;
    var query := ShowInsert(table, columns, ShowSelect(row, condition));
    var found := InsertKeys(schemas, table, query, args);
    InsertSelectKeys(table, schemas[table], columns, row, condition, args);
    ScanDelivers(schemas[table], columns, [row], args, found, m.rows);
    keys := found.value;
    assert m == Undo.Insert(m.table, m.rows, m.guard);
    assert (set k | k in keys) == m.Keys(t);
  }
}
