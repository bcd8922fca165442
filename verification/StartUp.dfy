/**
 Opening the ClickHouse backend: the schema migration of every table runs first, then the recovery
 of the transaction that a crash has left in the undo log. Recovery puts the saved rows back with
 INSERT ... SELECT *, which goes by position and is refused when the column counts differ.
 */
module StartUp {
  import opened Collections
  import opened SchemaMigration

  /** What the undo log holds of one table: its snapshot, and the keys whose rows may have changed. */
  datatype Undo = Undo(columns: seq<Column>, rows: seq<Row>, keys: set<Key>) {
    predicate Valid() {
      forall row | row in rows :: row.Keys == ColumnSet(columns)
    }
  }

  function Index(columns: seq<Column>, c: Column): (i: nat)
    requires c in columns
    ensures i < |columns| && columns[i] == c
  {
    if columns[0] == c then 0 else 1 + Index(columns[1..], c)
  }

  /** A row of one table, taken column by column into another. */
  function Placed(row: Row, from: seq<Column>, to: seq<Column>): (r: Row)
    requires |from| == |to| && row.Keys == ColumnSet(from)
    ensures r.Keys == ColumnSet(to)
    ensures from == to ==> r == row
  {
    map c | c in to :: row[from[Index(to, c)]]
  }

  function InsertRow(t: Table, row: Row): (r: Table)
    requires t.Valid() && row.Keys == ColumnSet(t.columns)
    ensures r.Valid() && r.columns == t.columns && r.keyColumns == t.keyColumns
  {
    t.(rows := t.rows[KeyOf(t.keyColumns, row) := row])
  }

  function WithoutRows(t: Table, keys: set<Key>): (r: Table)
    requires t.Valid()
    ensures r.Valid()
  {
    t.(rows := t.rows - keys)
  }

  predicate SameRow(a: Table, b: Table, k: Key) {
    (k in a.rows <==> k in b.rows) && (k in a.rows ==> a.rows[k] == b.rows[k])
  }

  /** The undo log suffices to bring `t` back to `base`. */
  ghost predicate Restorable(t: Table, u: Undo, base: Table) {
    && base.Valid() && t.keyColumns == base.keyColumns && t.columns == base.columns == u.columns
    && (forall row | row in u.rows :: row.Keys == ColumnSet(base.columns) && KeyOf(base.keyColumns, row) in base.rows
                                      && base.rows[KeyOf(base.keyColumns, row)] == row)
    && (forall k | k in base.rows && k in u.keys :: base.rows[k] in u.rows)
    && (forall k | k !in u.keys :: SameRow(t, base, k))
  }

  /** Every base row that is recorded is back if it is among the first `n` snapshot rows. */
  ghost predicate Filled(t: Table, u: Undo, base: Table, n: nat)
    requires n <= |u.rows|
  {
    && (forall k | k in t.rows :: k in base.rows && t.rows[k] == base.rows[k])
    && (forall k | k in base.rows && (k !in u.keys || base.rows[k] in u.rows[..n]) :: k in t.rows)
  }

  lemma FilledAll(t: Table, u: Undo, base: Table)
    requires Restorable(t, u, base) && Filled(t, u, base, |u.rows|)
    ensures t == base
  {
    assert u.rows[..|u.rows|] == u.rows;
    assert t.rows == base.rows;
  }

  lemma FillOne(t: Table, u: Undo, base: Table, n: nat)
    requires t.Valid() && Restorable(t, u, base) && n < |u.rows| && Filled(t, u, base, n)
    ensures u.rows[n] in u.rows && u.rows[n].Keys == ColumnSet(t.columns)
    ensures Restorable(InsertRow(t, u.rows[n]), u, base) && Filled(InsertRow(t, u.rows[n]), u, base, n + 1)
  {
    var row, k := u.rows[n], KeyOf(base.keyColumns, u.rows[n]);
    assert row in u.rows;
    assert k in base.rows && base.rows[k] == row;
    PutBack(t, InsertRow(t, row), u, base, k);
    assert u.rows[..n + 1] == u.rows[..n] + [row];
    SameKeyOfRow(base, k);
  }

  /** A base row put back. */
  lemma PutBack(t: Table, after: Table, u: Undo, base: Table, k: Key)
    requires Restorable(t, u, base) && k in base.rows
    requires after == t.(rows := t.rows[k := base.rows[k]])
    ensures Restorable(after, u, base)
  {
  }

  /** Different keys have different rows. */
  lemma SameKeyOfRow(base: Table, k: Key)
    requires base.Valid() && k in base.rows
    ensures forall j | j in base.rows && base.rows[j] == base.rows[k] :: j == k
  {
    forall j | j in base.rows && base.rows[j] == base.rows[k] ensures j == k {
      assert KeyOf(base.keyColumns, base.rows[j]) == j;
    }
  }

  /** Deleting any of the recorded rows is safe, and after all of them the rest are base rows. */
  lemma CutCovered(t: Table, u: Undo, base: Table, keys: set<Key>)
    requires t.Valid() && Restorable(t, u, base) && keys <= u.keys
    ensures Restorable(WithoutRows(t, keys), u, base)
    ensures keys == u.keys ==> Filled(WithoutRows(t, keys), u, base, 0)
  {
  }

  /** `restoreSnapshot` for a journaled table; a failing statement may have done part of its work. */
  method Restore(store: Store, u: Undo, ghost base: Table) returns (ok: bool)
    requires store.Valid() && store.source.Some? && u.Valid()
    modifies store`source
    ensures store.Valid() && store.source.Some? && store.source.value.columns == old(store.source.value.columns)
    ensures ok ==> |u.columns| == |store.source.value.columns|
    ensures store.reliable ==> (ok <==> |u.columns| == |store.source.value.columns|)
    ensures store.reliable && !ok ==> store.source == Some(WithoutRows(old(store.source.value), u.keys))
    ensures old(Restorable(store.source.value, u, base)) ==>
              Restorable(store.source.value, u, base) && (ok ==> store.source == Some(base))
  {
    hide Restorable, Filled, Table.Valid, Placed, WithoutRows, InsertRow;
    ghost var covered := Restorable(store.source.value, u, base);
    ok := store.Query();
    if !ok { return; }
    ok := store.Query();
    var keys := u.keys;
    if !ok {
      var part: set<Key> := *;
      keys := part * u.keys;
    }
    if covered { CutCovered(store.source.value, u, base, keys); }
    CutKeepsColumns(store.source.value, keys);
    store.source := Some(WithoutRows(store.source.value, keys));
    if !ok || |u.columns| != |store.source.value.columns| {
      return false;
    }
    ok := store.Query();
    var n: nat := |u.rows|;
    if !ok {
      var part: nat := *;
      if 0 <= part < n { n := part; }
    }
    for i := 0 to n
      invariant store.Valid() && store.source.Some? && store.source.value.columns == old(store.source.value.columns)
      invariant covered ==> Restorable(store.source.value, u, base) && Filled(store.source.value, u, base, i)
    {
      assert u.rows[i] in u.rows;
      var row := Placed(u.rows[i], u.columns, store.source.value.columns);
      if covered {
        RestorableColumns(store.source.value, u, base);
        FillOne(store.source.value, u, base, i);
      }
      store.source := Some(InsertRow(store.source.value, row));
    }
    if !ok { return; }
    if covered { FilledAll(store.source.value, u, base); }
    ok := store.Query();
  }

  lemma CutKeepsColumns(t: Table, keys: set<Key>)
    requires t.Valid()
    ensures WithoutRows(t, keys).columns == t.columns
  {
  }

  lemma RestorableColumns(t: Table, u: Undo, base: Table)
    requires Restorable(t, u, base)
    ensures t.columns == base.columns == u.columns
  {
  }

  predicate Distinct(columns: seq<Column>) {
    forall i, j | 0 <= i < j < |columns| :: columns[i] != columns[j]
  }

  lemma {:induction false} DistinctCount(columns: seq<Column>)
    ensures |ColumnSet(columns)| <= |columns|
    ensures Distinct(columns) ==> |ColumnSet(columns)| == |columns|
    decreases |columns|
  {
    if columns != [] {
      DistinctCount(columns[1..]);
      assert ColumnSet(columns) == {columns[0]} + ColumnSet(columns[1..]);
    }
  }

  /** A migration that changes the columns adds some, so the snapshot has too few. */
  lemma WidenedIsWider(t: Table, s: Schema)
    requires Widens(t, s) && Distinct(t.columns)
    ensures |t.columns| < |s.columns|
  {
    DistinctCount(t.columns);
    DistinctCount(s.columns);
    var c :| c in s.columns && c !in t.columns;
    assert ColumnSet(t.columns) <= ColumnSet(s.columns) - {c};
    SubsetSize(ColumnSet(t.columns), ColumnSet(s.columns) - {c});
  }

  /** After a completed migration the columns are the old ones exactly if they were complete. */
  lemma MigratedColumns(before: Table, after: Option<Table>, s: Schema)
    requires before.Valid() && s.Valid() && SameOrUpgraded(Some(before), after, s) && Distinct(before.columns)
    requires after.Some? && Complete(after.value.columns, s)
    ensures Complete(before.columns, s) <==> after == Some(before)
    ensures |after.value.columns| == |before.columns| <==> Complete(before.columns, s)
  {
    if after != Some(before) {
      WidenedIsWider(before, s);
    }
  }

  /** A table of the undo log as a crash has left it. */
  ghost predicate Interrupted(t: Option<Table>, undo: Option<Undo>, base: Table) {
    undo.Some? ==> t.Some? && undo.value.Valid() && Restorable(t.value, undo.value, base) && Distinct(base.columns)
  }

  /**
   `openClickHouse` after a crash inside a transaction. When the migration completes, a reliable
   recovery succeeds exactly if every journaled table already has the columns the version expects,
   and a successful one has brought every journaled table back.
   */
  method Start(stores: seq<Store>, schemas: seq<Schema>, undos: seq<Option<Undo>>, ghost bases: seq<Table>)
    returns (r: Outcome, ok: bool)
    requires |stores| == |schemas| == |undos| == |bases|
    requires forall i, j | 0 <= i < j < |stores| :: stores[i] != stores[j]
    requires forall i | 0 <= i < |stores| :: stores[i].Valid() && schemas[i].Valid()
    requires forall i | 0 <= i < |stores| :: Interrupted(stores[i].Current(), undos[i], bases[i])
    modifies stores
    ensures ok ==> r.Completed?
    ensures ok ==>
              forall i | 0 <= i < |stores| && undos[i].Some? ::
                stores[i].Current() == Some(bases[i]) && Complete(bases[i].columns, schemas[i])
    ensures r.Completed? && (forall i | 0 <= i < |stores| :: stores[i].reliable) ==>
              (ok <==> forall i | 0 <= i < |stores| && undos[i].Some? :: Complete(bases[i].columns, schemas[i]))
  {
    hide Restorable, SameOrUpgraded, Complete, Distinct, Table.Valid, Schema.Valid, Undo.Valid, InsertRow, WithoutRows;
    r := InitializeAll(stores, schemas);
    ok := r.Completed?;
    if !ok { return; }
    label Migrated:
    for i := 0 to |stores|
      invariant forall j | 0 <= j < |stores| :: stores[j].Valid()
      invariant forall j | i <= j < |stores| :: unchanged@Migrated(stores[j])
      invariant forall j | 0 <= j < i && undos[j].Some? ::
                  stores[j].source == Some(bases[j]) && Complete(bases[j].columns, schemas[j])
    {
      if undos[i].Some? {
        assert old@Migrated(stores[i].Ready(schemas[i]));
        ghost var before := old(stores[i].Current()).value;
        InterruptedColumns(before, undos[i].value, bases[i]);
        MigratedColumns(before, stores[i].Current(), schemas[i]);
        ok := Restore(stores[i], undos[i].value, bases[i]);
        if !ok { return; }
      }
    }
  }

  lemma InterruptedColumns(t: Table, u: Undo, base: Table)
    requires Restorable(t, u, base) && Distinct(base.columns)
    ensures Distinct(t.columns) && t.columns == base.columns == u.columns
  {
  }

  /** Once widened a table stays wider than its snapshot, so no later version can recover it either. */
  lemma StaysWider(t: Table, after: Option<Table>, s: Schema, u: Undo)
    requires t.Valid() && s.Valid() && SameOrUpgraded(Some(t), after, s)
    requires Distinct(t.columns) && |u.columns| < |t.columns|
    ensures after.Some? && |u.columns| < |after.value.columns|
  {
    if after != Some(t) { WidenedIsWider(t, s); }
  }
}
