/**
 The durable state behind the ClickHouse undo log, and the effect of each SQL statement on it.

 ClickHouse has no transactions. A transaction keeps, for every table it changes, a snapshot
 table, a journal row naming that snapshot, and one record for every row key it may change.
 Rows live in tables keyed by `_renop_key`, so inserting a row replaces the row with its key.
 */
module UndoLogStore {

  /** Names of tables and transactions, and whole rows, are opaque here. */
  type Name(==, !new)
  type Row(==, !new)

  /** Values of `_renop_key`. */
  type RowKey = string

  type Table = map<RowKey, Row>
  type Tables = map<Name, Table>

  /** The table name `_renop_tx_<transaction>_<index>`; transaction ids hold no underscore. */
  datatype SnapshotName = SnapshotName(tx: Name, index: nat)

  datatype JournalKey = JournalKey(tx: Name, table: Name)

  datatype KeyRecord = KeyRecord(tx: Name, table: Name, key: RowKey)

  /** A snapshot table has no primary key, so it is a list of rows and may hold one twice. */
  type Snapshot = seq<(RowKey, Row)>

  datatype Db = Db(
    tables: Tables,
    snapshots: map<SnapshotName, Snapshot>,
    journal: map<JournalKey, SnapshotName>,
    keys: set<KeyRecord>)

  /** Inserting rows one after another; a later row replaces an earlier one with its key. */
  function Upsert(table: Table, rows: Snapshot): Table
    decreases |rows|
  {
    if rows == [] then table else Upsert(table[rows[0].0 := rows[0].1], rows[1..])
  }

  /** A mutation statement. `guard` is the WHERE NOT EXISTS of an INSERT ... SELECT. */
  datatype Mutation =
    | Insert(table: Name, rows: Snapshot, guard: Table -> bool)
    | Update(table: Name, matches: Row -> bool, change: Row -> Row)
    | Delete(table: Name, matches: Row -> bool)
  {
    function Apply(t: Table): Table {
      match this
      case Insert(_, rows, guard) => if guard(t) then Upsert(t, rows) else t
      case Update(_, matches, change) => map k | k in t :: if matches(t[k]) then change(t[k]) else t[k]
      case Delete(_, matches) => map k | k in t && !matches(t[k]) :: t[k]
    }

    /** The keys named by the statement: those of the inserted rows, or of the matching rows. */
    function Keys(t: Table): set<RowKey> {
      match this
      case Insert(_, rows, _) => set i | 0 <= i < |rows| :: rows[i].0
      case Update(_, matches, _) => set k | k in t && matches(t[k])
      case Delete(_, matches) => set k | k in t && matches(t[k])
    }
  }

  // ---- The statements of the undo log, as functions of the durable state ----

  function CreateSnapshot(db: Db, name: SnapshotName): Db {
    db.(snapshots := db.snapshots[name := []])
  }

  function DropSnapshot(db: Db, name: SnapshotName): Db {
    db.(snapshots := db.snapshots - {name})
  }

  function InsertJournal(db: Db, tx: Name, table: Name, name: SnapshotName): Db {
    db.(journal := db.journal[JournalKey(tx, table) := name])
  }

  function DeleteJournal(db: Db, tx: Name, table: Name): Db {
    db.(journal := db.journal - {JournalKey(tx, table)})
  }

  /** INSERT INTO snapshot SELECT * FROM table WHERE _renop_key = key. */
  function CopyRow(db: Db, name: SnapshotName, table: Name, key: RowKey): Db
    requires name in db.snapshots && table in db.tables
  {
    if key in db.tables[table] then
      db.(snapshots := db.snapshots[name := db.snapshots[name] + [(key, db.tables[table][key])]])
    else db
  }

  function InsertKey(db: Db, tx: Name, table: Name, key: RowKey): Db {
    db.(keys := db.keys + {KeyRecord(tx, table, key)})
  }

  function DeleteKeys(db: Db, tx: Name, table: Name): Db {
    db.(keys := set r | r in db.keys && !(r.tx == tx && r.table == table))
  }

  /** DELETE FROM transaction keys WHERE transaction_id NOT IN (SELECT transaction_id FROM journal). */
  function DeleteOrphanKeys(db: Db): Db {
    db.(keys := set r | r in db.keys && exists j :: j in db.journal && j.tx == r.tx)
  }

  predicate Recorded(db: Db, tx: Name, table: Name, key: RowKey) {
    KeyRecord(tx, table, key) in db.keys
  }

  function DeleteRecordedRows(db: Db, tx: Name, table: Name): Db
    requires table in db.tables
  {
    var t := db.tables[table];
    db.(tables := db.tables[table := map k | k in t && !Recorded(db, tx, table, k) :: t[k]])
  }

  function InsertSnapshotRows(db: Db, table: Name, name: SnapshotName): Db
    requires name in db.snapshots && table in db.tables
  {
    db.(tables := db.tables[table := Upsert(db.tables[table], db.snapshots[name])])
  }

  function Mutate(db: Db, m: Mutation): Db
    requires m.table in db.tables
  {
    db.(tables := db.tables[m.table := m.Apply(db.tables[m.table])])
  }

  predicate SameAt(a: Table, b: Table, key: RowKey) {
    (key in a <==> key in b) && (key in a ==> a[key] == b[key])
  }

  /** What a crash may leave of one statement: any part of its row changes and key changes. */
  predicate Torn(before: Db, after: Db, full: Db) {
    && (after.journal == before.journal || after.journal == full.journal)
    && (after.snapshots == before.snapshots || after.snapshots == full.snapshots)
    && before.keys * full.keys <= after.keys <= before.keys + full.keys
    && after.tables.Keys == before.tables.Keys == full.tables.Keys
    && forall t | t in after.tables ::
         (forall k | k in after.tables[t].Keys + before.tables[t].Keys + full.tables[t].Keys ::
            SameAt(after.tables[t], before.tables[t], k) || SameAt(after.tables[t], full.tables[t], k))
  }

  // ---- What makes a state recoverable ----

  /** The snapshot and the key records of (tx, table) suffice to bring the table back to `base`. */
  ghost predicate Covers(db: Db, tx: Name, table: Name, rows: Snapshot, base: Table)
    requires table in db.tables
  {
    && (forall i | 0 <= i < |rows| :: rows[i].0 in base && base[rows[i].0] == rows[i].1)
    && (forall k | k in base && Recorded(db, tx, table, k) :: (k, base[k]) in rows)
    && (forall k | !Recorded(db, tx, table, k) :: SameAt(db.tables[table], base, k))
  }

  ghost predicate Journaled(db: Db, table: Name) {
    exists j :: j in db.journal && j.table == table
  }

  /** Start-up recovery from `db` ends with the tables `base`. */
  ghost predicate Recoverable(db: Db, base: Tables) {
    && db.tables.Keys == base.Keys
    && (forall j | j in db.journal ::
          && j.table in base
          && db.journal[j] in db.snapshots
          && Covers(db, j.tx, j.table, db.snapshots[db.journal[j]], base[j.table]))
    && (forall i, j | i in db.journal && j in db.journal && i != j ::
          i.table != j.table && db.journal[i] != db.journal[j])
    && (forall t | t in base && !Journaled(db, t) :: db.tables[t] == base[t])
  }

  lemma {:induction false} UpsertAt(table: Table, rows: Snapshot, base: Table, k: RowKey)
    requires forall i | 0 <= i < |rows| :: rows[i].0 in base && base[rows[i].0] == rows[i].1
    ensures (exists i :: 0 <= i < |rows| && rows[i].0 == k) ==> SameAt(Upsert(table, rows), base, k)
    ensures !(exists i :: 0 <= i < |rows| && rows[i].0 == k) ==> SameAt(Upsert(table, rows), table, k)
    decreases |rows|
  {
    if rows != [] {
      var next := table[rows[0].0 := rows[0].1];
      UpsertAt(next, rows[1..], base, k);
      assert forall j | 0 <= j < |rows[1..]| :: rows[1..][j].0 == rows[j + 1].0;
      if i :| 1 <= i < |rows| && rows[i].0 == k {
        assert rows[1..][i - 1].0 == k;
      }
    }
  }

  /** Deleting the recorded rows and inserting the snapshot gives back the base table. */
  lemma RestoreGivesBase(db: Db, tx: Name, table: Name, name: SnapshotName, base: Table)
    requires table in db.tables && name in db.snapshots
    requires Covers(db, tx, table, db.snapshots[name], base)
    ensures InsertSnapshotRows(DeleteRecordedRows(db, tx, table), table, name).tables[table] == base
  {
    var rows := db.snapshots[name];
    var cut := DeleteRecordedRows(db, tx, table).tables[table];
    var restored := Upsert(cut, rows);
    forall k ensures SameAt(restored, base, k) {
      UpsertAt(cut, rows, base, k);
      if k in base && Recorded(db, tx, table, k) {
        var i :| 0 <= i < |rows| && rows[i] == (k, base[k]);
        assert rows[i].0 == k;
      }
      if !Recorded(db, tx, table, k) {
        assert SameAt(db.tables[table], base, k);
        assert SameAt(cut, base, k);
      }
    }
    assert restored == base by {
      assert forall k :: k in restored <==> k in base by {
        forall k ensures k in restored <==> k in base { assert SameAt(restored, base, k); }
      }
      assert forall k | k in restored :: restored[k] == base[k] by {
        forall k | k in restored ensures restored[k] == base[k] { assert SameAt(restored, base, k); }
      }
    }
  }

  /** A mutation changes no row outside the keys it names. */
  lemma MutationStaysInKeys(m: Mutation, t: Table, k: RowKey)
    requires k !in m.Keys(t)
    ensures SameAt(m.Apply(t), t, k)
  {
    if m.Insert? {
      UpsertOutside(t, m.rows, k);
    }
  }

  lemma {:induction false} UpsertOutside(t: Table, rows: Snapshot, k: RowKey)
    requires forall i | 0 <= i < |rows| :: rows[i].0 != k
    ensures SameAt(Upsert(t, rows), t, k)
    decreases |rows|
  {
    if rows != [] {
      UpsertOutside(t[rows[0].0 := rows[0].1], rows[1..], k);
    }
  }

  lemma RecoverableDomain(db: Db, base: Tables)
    requires Recoverable(db, base)
    ensures db.tables.Keys == base.Keys
    ensures forall j | j in db.journal :: j.table in base && db.journal[j] in db.snapshots
    ensures forall i, j | i in db.journal && j in db.journal && i != j ::
              i.table != j.table && db.journal[i] != db.journal[j]
  {
  }

  // ---- Each statement of the undo log is safe ----

  /** Whatever part of the statement with effect `full` is done, recovery ends with `base`. */
  ghost predicate Safe(db: Db, full: Db, base: Tables) {
    forall after | Torn(db, after, full) :: Recoverable(after, base)
  }

  lemma SameEverywhere(a: Table, b: Table)
    requires forall k :: SameAt(a, b, k)
    ensures a == b
  {
    assert forall k :: k in a <==> k in b by {
      forall k ensures k in a <==> k in b { assert SameAt(a, b, k); }
    }
    assert forall k | k in a :: a[k] == b[k] by {
      forall k | k in a ensures a[k] == b[k] { assert SameAt(a, b, k); }
    }
  }

  lemma TornTables(db: Db, after: Db, full: Db, table: Name)
    requires Torn(db, after, full)
    requires forall t | t in db.tables && t != table :: full.tables[t] == db.tables[t]
    ensures forall t | t in db.tables && t != table :: after.tables[t] == db.tables[t]
    ensures table in db.tables ==>
              forall k ::
                SameAt(after.tables[table], db.tables[table], k) || SameAt(after.tables[table], full.tables[table], k)
  {
    forall t | t in db.tables && t != table ensures after.tables[t] == db.tables[t] {
      forall k ensures SameAt(after.tables[t], db.tables[t], k) {
        if k in after.tables[t].Keys + db.tables[t].Keys + full.tables[t].Keys {}
      }
      SameEverywhere(after.tables[t], db.tables[t]);
    }
    if table in db.tables {
      forall k ensures SameAt(after.tables[table], db.tables[table], k) ||
        SameAt(after.tables[table], full.tables[table], k) {
        if k in after.tables[table].Keys + db.tables[table].Keys + full.tables[table].Keys {}
      }
    }
  }

  lemma TornTablesUnchanged(db: Db, after: Db, full: Db)
    requires Torn(db, after, full) && full.tables == db.tables
    ensures after.tables == db.tables
  {
    forall t | t in db.tables ensures after.tables[t] == db.tables[t] {
      TornTables(db, after, full, t);
      SameEverywhere(after.tables[t], db.tables[t]);
    }
  }

  /** A statement on the journal or on one snapshot either happened or did not. */
  lemma TornAtomic(before: Db, after: Db, full: Db)
    requires Torn(before, after, full) && full.tables == before.tables && full.keys == before.keys
    requires full.journal == before.journal || full.snapshots == before.snapshots
    ensures after == before || after == full
  {
    TornTablesUnchanged(before, after, full);
  }

  lemma AtomicSafe(db: Db, full: Db, base: Tables)
    requires Recoverable(db, base) && Recoverable(full, base)
    requires full.tables == db.tables && full.keys == db.keys
    requires full.journal == db.journal || full.snapshots == db.snapshots
    ensures Safe(db, full, base)
  {
    forall after | Torn(db, after, full) ensures Recoverable(after, base) {
      TornAtomic(db, after, full);
    }
  }

  lemma CoversCarried(db: Db, after: Db, tx: Name, table: Name, saved: Snapshot, base: Table)
    requires table in db.tables && table in after.tables && after.tables[table] == db.tables[table]
    requires Covers(db, tx, table, saved, base) &&
             forall k :: Recorded(after, tx, table, k) == Recorded(db, tx, table, k)
    ensures Covers(after, tx, table, saved, base)
  {
  }

  /** A state that differs from a recoverable one at most in the undo records and rows of `j`. */
  lemma CoversEnough(db: Db, after: Db, base: Tables, j: JournalKey)
    requires Recoverable(db, base) && j.table in base
    requires after.tables.Keys == db.tables.Keys
    requires forall i | i != j :: i in after.journal <==> i in db.journal
    requires forall i | i in db.journal && i != j ::
               && after.journal[i] == db.journal[i] && i.table != j.table
               && after.journal[i] in after.snapshots &&
                 after.snapshots[after.journal[i]] == db.snapshots[db.journal[i]]
    requires forall x, t, k | t != j.table :: Recorded(after, x, t, k) == Recorded(db, x, t, k)
    requires forall t | t in db.tables && t != j.table :: after.tables[t] == db.tables[t]
    requires if j in after.journal then
               && after.journal[j] in after.snapshots
               && (forall i | i in db.journal && i != j :: db.journal[i] != after.journal[j])
               && Covers(after, j.tx, j.table, after.snapshots[after.journal[j]], base[j.table])
             else after.tables[j.table] == base[j.table]
    ensures Recoverable(after, base)
  {
    hide Covers, Recorded;
    forall i | i in after.journal && i != j
      ensures Covers(after, i.tx, i.table, after.snapshots[after.journal[i]], base[i.table])
    {
      CoversCarried(db, after, i.tx, i.table, db.snapshots[db.journal[i]], base[i.table]);
    }
    forall t | t in base && !Journaled(after, t) ensures after.tables[t] == base[t] {
      if t == j.table {
        assert j !in after.journal;
      } else {
        assert forall i | i in db.journal && i.table == t :: i in after.journal;
        assert !Journaled(db, t);
      }
    }
  }

  /** Recorded rows of a journaled table may change in any way. */
  lemma RecordedRowsSafe(db: Db, full: Db, base: Tables, j: JournalKey)
    requires Recoverable(db, base) && j in db.journal
    requires full == db.(tables := full.tables) && full.tables.Keys == db.tables.Keys
    requires forall t | t in db.tables && t != j.table :: full.tables[t] == db.tables[t]
    requires forall k | !Recorded(db, j.tx, j.table, k) :: SameAt(full.tables[j.table], base[j.table], k)
    ensures Safe(db, full, base)
  {
    forall after | Torn(db, after, full) ensures Recoverable(after, base) {
      TornTables(db, after, full, j.table);
      forall k | !Recorded(after, j.tx, j.table, k)
        ensures SameAt(after.tables[j.table], base[j.table], k)
      {
        assert SameAt(db.tables[j.table], base[j.table], k);
        assert SameAt(after.tables[j.table], db.tables[j.table], k) ||
          SameAt(after.tables[j.table], full.tables[j.table], k);
      }
      CoversEnough(db, after, base, j);
    }
  }

  /** A mutation whose keys are all recorded may run. */
  lemma MutationSafe(db: Db, base: Tables, j: JournalKey, m: Mutation)
    requires Recoverable(db, base) && j in db.journal && j.table == m.table
    requires forall k | k in m.Keys(db.tables[m.table]) :: Recorded(db, j.tx, j.table, k)
    ensures Safe(db, Mutate(db, m), base)
  {
    var full := Mutate(db, m);
    forall k | !Recorded(db, j.tx, j.table, k)
      ensures SameAt(full.tables[j.table], base[j.table], k)
    {
      MutationStaysInKeys(m, db.tables[m.table], k);
      assert SameAt(db.tables[j.table], base[j.table], k);
    }
    RecordedRowsSafe(db, full, base, j);
  }

  /** Both halves of a restore are safe, and after them the table holds its base rows. */
  lemma RestoreSafe(db: Db, base: Tables, j: JournalKey)
    requires Recoverable(db, base) && j in db.journal
    ensures Safe(db, DeleteRecordedRows(db, j.tx, j.table), base)
    ensures Safe(DeleteRecordedRows(db, j.tx, j.table),
                 InsertSnapshotRows(DeleteRecordedRows(db, j.tx, j.table), j.table, db.journal[j]), base)
    ensures InsertSnapshotRows(DeleteRecordedRows(db, j.tx, j.table), j.table, db.journal[j]).tables[j.table] ==
            base[j.table]
  {
    var name := db.journal[j];
    var cut := DeleteRecordedRows(db, j.tx, j.table);
    forall k | !Recorded(db, j.tx, j.table, k) ensures SameAt(cut.tables[j.table], base[j.table], k) {
      assert SameAt(db.tables[j.table], base[j.table], k);
    }
    RecordedRowsSafe(db, cut, base, j);
    SafeReached(db, cut, base);
    RestoreGivesBase(db, j.tx, j.table, name, base[j.table]);
    RecordedRowsSafe(cut, InsertSnapshotRows(cut, j.table, name), base, j);
  }

  lemma SafeReached(db: Db, full: Db, base: Tables)
    requires Safe(db, full, base) && full.tables.Keys == db.tables.Keys
    ensures Recoverable(full, base)
  {
    assert Torn(db, full, full);
  }

  /** Once a table holds its base rows, or has no journal row, its key records may go. */
  lemma DeleteKeysSafe(db: Db, base: Tables, j: JournalKey)
    requires Recoverable(db, base) && j.table in base
    requires db.tables[j.table] == base[j.table] || !Journaled(db, j.table)
    ensures Safe(db, DeleteKeys(db, j.tx, j.table), base)
    ensures Safe(DeleteKeys(db, j.tx, j.table), DeleteJournal(DeleteKeys(db, j.tx, j.table), j.tx, j.table), base)
  {
    var full := DeleteKeys(db, j.tx, j.table);
    if !Journaled(db, j.table) {
      assert j !in db.journal;
    }
    forall after | Torn(db, after, full) ensures Recoverable(after, base) {
      TornTablesUnchanged(db, after, full);
      KeysMayGo(db, after, base, j);
    }
    SafeReached(db, full, base);
    var done := DeleteJournal(full, j.tx, j.table);
    JournalRowMayGo(full, base, j);
    AtomicSafe(full, done, base);
  }

  lemma KeysMayGo(db: Db, after: Db, base: Tables, j: JournalKey)
    requires Recoverable(db, base) && j.table in base
    requires after == db.(keys := after.keys) && after.keys <= db.keys
    requires forall r | r in db.keys && !(r.tx == j.tx && r.table == j.table) :: r in after.keys
    requires j in db.journal ==> db.tables[j.table] == base[j.table]
    ensures Recoverable(after, base)
  {
    forall i | i in after.journal
      ensures Covers(after, i.tx, i.table, after.snapshots[after.journal[i]], base[i.table])
    {
      assert Covers(db, i.tx, i.table, db.snapshots[db.journal[i]], base[i.table]);
      if i != j {
        assert forall k :: Recorded(after, i.tx, i.table, k) == Recorded(db, i.tx, i.table, k);
      }
    }
    assert forall t :: Journaled(after, t) == Journaled(db, t);
  }

  lemma JournalRowMayGo(db: Db, base: Tables, j: JournalKey)
    requires Recoverable(db, base) && j.table in base
    requires j in db.journal ==> db.tables[j.table] == base[j.table]
    ensures Recoverable(DeleteJournal(db, j.tx, j.table), base)
  {
    if j in db.journal {
      CoversEnough(db, DeleteJournal(db, j.tx, j.table), base, j);
    } else {
      assert DeleteJournal(db, j.tx, j.table) == db;
    }
  }

  /** A snapshot no journal row names may be created or dropped. */
  lemma SnapshotSafe(db: Db, full: Db, base: Tables, name: SnapshotName)
    requires Recoverable(db, base)
    requires forall j | j in db.journal :: db.journal[j] != name
    requires full == db.(snapshots := full.snapshots)
    requires forall n | n in db.snapshots && n != name :: n in full.snapshots && full.snapshots[n] == db.snapshots[n]
    ensures Safe(db, full, base)
  {
    hide Covers;
    forall i | i in full.journal
      ensures Covers(full, i.tx, i.table, full.snapshots[full.journal[i]], base[i.table])
    {
      CoversCarried(db, full, i.tx, i.table, db.snapshots[db.journal[i]], base[i.table]);
    }
    assert forall t :: Journaled(full, t) == Journaled(db, t);
    AtomicSafe(db, full, base);
  }

  /** An untouched table may get an empty snapshot and a journal row naming it. */
  lemma OpenSafe(db: Db, base: Tables, j: JournalKey, name: SnapshotName)
    requires Recoverable(db, base) && j.table in base && !Journaled(db, j.table)
    requires forall i | i in db.journal :: db.journal[i] != name
    requires forall k :: !Recorded(db, j.tx, j.table, k)
    ensures Safe(db, CreateSnapshot(db, name), base)
    ensures Safe(CreateSnapshot(db, name), InsertJournal(CreateSnapshot(db, name), j.tx, j.table, name), base)
  {
    var created := CreateSnapshot(db, name);
    SnapshotSafe(db, created, base, name);
    SafeReached(db, created, base);
    var full := InsertJournal(created, j.tx, j.table, name);
    assert forall k :: Recorded(full, j.tx, j.table, k) == Recorded(db, j.tx, j.table, k);
    assert forall i | i in db.journal :: i.table != j.table;
    CoversEnough(created, full, base, j);
    AtomicSafe(created, full, base);
  }

  /** The row of an unrecorded key still is its base row, so it may be copied into the snapshot. */
  lemma CopySafe(db: Db, base: Tables, j: JournalKey, key: RowKey)
    requires Recoverable(db, base) && j in db.journal && !Recorded(db, j.tx, j.table, key)
    ensures Safe(db, CopyRow(db, db.journal[j], j.table, key), base)
    ensures key in base[j.table] ==>
              (key, base[j.table][key]) in CopyRow(db, db.journal[j], j.table, key).snapshots[db.journal[j]]
  {
    var name := db.journal[j];
    var copied := CopyRow(db, name, j.table, key);
    assert SameAt(db.tables[j.table], base[j.table], key);
    assert forall k :: Recorded(copied, j.tx, j.table, k) == Recorded(db, j.tx, j.table, k);
    assert forall e | e in db.snapshots[name] :: e in copied.snapshots[name];
    CoversEnough(db, copied, base, j);
    AtomicSafe(db, copied, base);
  }

  lemma CoversOneMore(db: Db, tx: Name, table: Name, rows: Snapshot, base: Table, key: RowKey)
    requires table in db.tables && Covers(db, tx, table, rows, base) && (key in base ==> (key, base[key]) in rows)
    ensures Covers(InsertKey(db, tx, table, key), tx, table, rows, base)
  {
    assert forall k | k != key :: Recorded(InsertKey(db, tx, table, key), tx, table, k) == Recorded(db, tx, table, k);
  }

  /** A key may be recorded once its row, if there is one, is in the snapshot. */
  lemma RecordSafe(db: Db, base: Tables, j: JournalKey, key: RowKey)
    requires Recoverable(db, base) && j in db.journal
    requires key in base[j.table] ==> (key, base[j.table][key]) in db.snapshots[db.journal[j]]
    ensures Safe(db, InsertKey(db, j.tx, j.table, key), base)
  {
    hide Covers;
    var full := InsertKey(db, j.tx, j.table, key);
    CoversOneMore(db, j.tx, j.table, db.snapshots[db.journal[j]], base[j.table], key);
    CoversEnough(db, full, base, j);
    forall after | Torn(db, after, full) ensures Recoverable(after, base) {
      TornTablesUnchanged(db, after, full);
      assert after.keys == db.keys || after.keys == full.keys;
    }
  }

  /** Deleting its journal row commits a table: from then on recovery keeps its present rows. */
  lemma CommitsTable(db: Db, base: Tables, j: JournalKey)
    requires Recoverable(db, base) && j in db.journal
    ensures Recoverable(DeleteJournal(db, j.tx, j.table), base[j.table := db.tables[j.table]])
  {
    hide Covers;
    var after, settled := DeleteJournal(db, j.tx, j.table), base[j.table := db.tables[j.table]];
    forall i | i in after.journal
      ensures Covers(after, i.tx, i.table, after.snapshots[after.journal[i]], settled[i.table])
    {
      CoversCarried(db, after, i.tx, i.table, db.snapshots[db.journal[i]], base[i.table]);
    }
    forall t | t in settled && !Journaled(after, t) ensures after.tables[t] == settled[t] {
      if t != j.table {
        assert forall i | i in db.journal && i.table == t :: i in after.journal;
        assert !Journaled(db, t);
      }
    }
  }

  lemma NotJournaledNow(db: Db, base: Tables, tx: Name, table: Name)
    requires Recoverable(db, base) && JournalKey(tx, table) in db.journal
    ensures !Journaled(DeleteJournal(db, tx, table), table)
  {
  }

  lemma JournaledBy(db: Db, tx: Name, table: Name)
    requires forall j | j in db.journal :: j.tx == tx
    ensures Journaled(db, table) <==> JournalKey(tx, table) in db.journal
  {
    if Journaled(db, table) {
      var j :| j in db.journal && j.table == table;
      assert j == JournalKey(tx, table);
    }
  }

  /** With no journal row left, the tables are the base tables. */
  lemma NothingJournaled(db: Db, base: Tables)
    requires Recoverable(db, base) && db.journal == map[]
    ensures db.tables == base
    ensures Safe(db, DeleteOrphanKeys(db), base)
  {
    forall t | t in base ensures db.tables[t] == base[t] {
      assert !Journaled(db, t);
    }
    forall after | Torn(db, after, DeleteOrphanKeys(db)) ensures Recoverable(after, base) {
      TornTablesUnchanged(db, after, DeleteOrphanKeys(db));
    }
  }

  /** The journal row of this table names this snapshot, or there is nothing left to restore. */
  predicate MayRestore(db: Db, tx: Name, table: Name, name: SnapshotName) {
    if JournalKey(tx, table) in db.journal then db.journal[JournalKey(tx, table)] == name
    else name !in db.snapshots && forall j | j in db.journal :: j.table != table
  }

  /** A transaction's own list of snapshots is exactly what the journal says. */
  ghost predicate InStep(db: Db, tx: Name, snapshots: map<Name, SnapshotName>) {
    && (forall t | t in snapshots :: JournalKey(tx, t) in db.journal && db.journal[JournalKey(tx, t)] == snapshots[t])
    && (forall j | j in db.journal :: j.tx == tx && j.table in snapshots)
    && (forall t | t in snapshots :: snapshots[t].tx == tx && snapshots[t].index < |snapshots|)
    && (forall r | r in db.keys && r.tx == tx :: r.table in snapshots)
  }

  /** An untouched table has no journal row and no key records, and the next name is unused. */
  lemma Untouched(db: Db, tx: Name, snapshots: map<Name, SnapshotName>, table: Name)
    requires InStep(db, tx, snapshots) && table !in snapshots
    ensures !Journaled(db, table)
    ensures forall k :: !Recorded(db, tx, table, k)
    ensures forall j | j in db.journal :: db.journal[j] != SnapshotName(tx, |snapshots|)
  {
  }

  lemma InStepOpened(db: Db, tx: Name, snapshots: map<Name, SnapshotName>, table: Name, name: SnapshotName)
    requires InStep(db, tx, snapshots) && table !in snapshots && name == SnapshotName(tx, |snapshots|)
    ensures InStep(InsertJournal(CreateSnapshot(db, name), tx, table, name), tx, snapshots[table := name])
  {
  }

  lemma InStepKept(db: Db, after: Db, tx: Name, snapshots: map<Name, SnapshotName>)
    requires InStep(db, tx, snapshots) && after.journal == db.journal
    requires forall r | r in after.keys :: r in db.keys || (r.tx == tx && r.table in snapshots)
    ensures InStep(after, tx, snapshots)
  {
  }

  /** Every table on the list may be restored, each from a snapshot of its own. */
  lemma InStepRestores(db: Db, base: Tables, tx: Name, snapshots: map<Name, SnapshotName>)
    requires InStep(db, tx, snapshots) && Recoverable(db, base)
    ensures snapshots.Keys <= base.Keys
    ensures forall t | t in snapshots :: JournalKey(tx, t) in db.journal && MayRestore(db, tx, t, snapshots[t])
    ensures forall t, u | t in snapshots && u in snapshots && t != u :: snapshots[t] != snapshots[u]
  {
    forall t, u | t in snapshots && u in snapshots && t != u ensures snapshots[t] != snapshots[u] {
      assert JournalKey(tx, t) != JournalKey(tx, u);
    }
  }

  /** At most the journal row and the snapshot of this table are gone. */
  predicate OnlyForgets(db: Db, after: Db, tx: Name, table: Name, name: SnapshotName) {
    && (after.journal == db.journal || after.journal == db.journal - {JournalKey(tx, table)})
    && (after.snapshots == db.snapshots || after.snapshots == db.snapshots - {name})
  }

  lemma OthersMayRestore(db: Db, after: Db, tx: Name, table: Name, name: SnapshotName, other: Name,
                         otherName: SnapshotName)
    requires OnlyForgets(db, after, tx, table, name) && MayRestore(db, tx, other, otherName)
    requires other != table && otherName != name
    ensures MayRestore(after, tx, other, otherName)
  {
  }

  /** The state after a completed restore of one table. */
  function Restored(db: Db, tx: Name, table: Name, name: SnapshotName): Db
    requires name in db.snapshots ==> table in db.tables
  {
    var rows := if name in db.snapshots then InsertSnapshotRows(DeleteRecordedRows(db, tx, table), table, name) else db;
    DropSnapshot(DeleteJournal(DeleteKeys(rows, tx, table), tx, table), name)
  }

  lemma RestoredForgets(db: Db, tx: Name, table: Name, name: SnapshotName)
    requires name in db.snapshots ==> table in db.tables
    ensures var after := Restored(db, tx, table, name);
            after.journal == db.journal - {JournalKey(tx, table)} && after.snapshots.Keys == db.snapshots.Keys - {name}
  {
    assert (db.snapshots - {name}).Keys == db.snapshots.Keys - {name};
  }

  /** What a mutation may have done when it fails: any part of its row changes. */
  ghost predicate PartlyChanged(before: Tables, after: Tables, m: Mutation) {
    && after.Keys == before.Keys
    && (forall t | t in before && t != m.table :: after[t] == before[t])
    && (m.table in before ==> Part(after[m.table], before[m.table], m.Apply(before[m.table])))
  }

  lemma NotChanged(tables: Tables, m: Mutation)
    ensures PartlyChanged(tables, tables, m)
  {
  }

  lemma ChangedInPart(db: Db, after: Db, m: Mutation)
    requires m.table in db.tables && Torn(db, after, Mutate(db, m))
    ensures PartlyChanged(db.tables, after.tables, m)
  {
    TornTables(db, after, Mutate(db, m), m.table);
  }

  // ---- A snapshot that outlives its journal row ----

  /** The snapshot holds base rows only, and every base row that has changed. */
  ghost predicate Saved(rows: Snapshot, new_: Table, base: Table) {
    && (forall i | 0 <= i < |rows| :: rows[i].0 in base && base[rows[i].0] == rows[i].1)
    && (forall k | k in base && !SameAt(new_, base, k) :: (k, base[k]) in rows)
  }

  /**
   A committed table whose snapshot could not be dropped. Its key records are as they were while
   it was journaled, or some of them, or none.
   */
  ghost predicate Leaks(db: Db, tx: Name, table: Name, name: SnapshotName, base: Table) {
    && table in db.tables && name in db.snapshots
    && Saved(db.snapshots[name], db.tables[table], base)
    && (forall k | k in base && Recorded(db, tx, table, k) :: (k, base[k]) in db.snapshots[name])
  }

  lemma LeaksThere(db: Db, tx: Name, table: Name, name: SnapshotName, base: Table)
    requires Leaks(db, tx, table, name, base)
    ensures table in db.tables && name in db.snapshots
  {
  }

  /** Every added key is recorded; or none is, and no base row is changed or lost. */
  ghost predicate StaysWhole(db: Db, tx: Name, table: Name, base: Table)
    requires table in db.tables
  {
    var new_ := db.tables[table];
    || (forall k | k in new_ && k !in base :: Recorded(db, tx, table, k))
    || ((forall k | k in new_ && k !in base :: !Recorded(db, tx, table, k)) &&
      forall k | k in base :: SameAt(new_, base, k))
  }

  lemma CoversSaved(db: Db, tx: Name, table: Name, rows: Snapshot, base: Table)
    requires table in db.tables && Covers(db, tx, table, rows, base)
    ensures Saved(rows, db.tables[table], base)
  {
  }

  /** The rows of a table after the first statement of a restore, and after the second. */
  function CutRows(db: Db, tx: Name, table: Name): Table
    requires table in db.tables
  {
    DeleteRecordedRows(db, tx, table).tables[table]
  }

  function RestoredRows(db: Db, tx: Name, table: Name, name: SnapshotName): Table
    requires table in db.tables && name in db.snapshots
  {
    Upsert(CutRows(db, tx, table), db.snapshots[name])
  }

  /** Every row comes from one of two tables: what a statement may leave when it stops half-way. */
  ghost predicate Part(rows: Table, a: Table, b: Table) {
    forall k :: SameAt(rows, a, k) || SameAt(rows, b, k)
  }

  /**
   What restoring a leaked table makes of it: `done` when both statements have run, otherwise what
   a part of one of them has left.
   */
  ghost predicate Outcome(db: Db, tx: Name, table: Name, name: SnapshotName, rows: Table, done: bool)
    requires table in db.tables && name in db.snapshots
  {
    var cut, restored := CutRows(db, tx, table), RestoredRows(db, tx, table, name);
    if done then rows == restored else Part(rows, db.tables[table], cut) || Part(rows, cut, restored)
  }

  /** The restore brings back every base row and removes the added keys that are recorded. */
  lemma RestoreOfLeaked(db: Db, tx: Name, table: Name, name: SnapshotName, base: Table, k: RowKey)
    requires Leaks(db, tx, table, name, base)
    ensures SameAt(RestoredRows(db, tx, table, name),
                   if k in base || Recorded(db, tx, table, k) then base else db.tables[table], k)
  {
    var rows := db.snapshots[name];
    UpsertAt(CutRows(db, tx, table), rows, base, k);
    if k in base && (k, base[k]) in rows {
      var i :| 0 <= i < |rows| && rows[i] == (k, base[k]);
      assert rows[i].0 == k;
    }
  }

  /**
   Restoring a leaked table leaves it old or new exactly if every added key is still recorded, or
   none is and no base row has changed.
   */
  lemma RestoredTearsIff(db: Db, tx: Name, table: Name, name: SnapshotName, base: Table)
    requires Leaks(db, tx, table, name, base)
    ensures var new_, restored := db.tables[table], RestoredRows(db, tx, table, name);
            restored == base || restored == new_ <==> StaysWhole(db, tx, table, base)
  {
    LeaksThere(db, tx, table, name, base);
    hide Leaks, RestoredRows;
    var new_, restored := db.tables[table], RestoredRows(db, tx, table, name);
    forall k ensures SameAt(restored, if k in base || Recorded(db, tx, table, k) then base else new_, k) {
      RestoreOfLeaked(db, tx, table, name, base, k);
    }
    if forall k | k in new_ && k !in base :: Recorded(db, tx, table, k) {
      forall k ensures SameAt(restored, base, k) {
        assert SameAt(restored, if k in base || Recorded(db, tx, table, k) then base else new_, k);
      }
      SameEverywhere(restored, base);
    } else {
      var added :| added in new_ && added !in base && !Recorded(db, tx, table, added);
      assert SameAt(restored, new_, added);
      if StaysWhole(db, tx, table, base) {
        forall k ensures SameAt(restored, new_, k) {
          assert SameAt(restored, if k in base || Recorded(db, tx, table, k) then base else new_, k);
        }
        SameEverywhere(restored, new_);
      } else if lost :| lost in base && !SameAt(new_, base, lost) {
        assert SameAt(restored, base, lost);
      } else {
        var gone :| gone in new_ && gone !in base && Recorded(db, tx, table, gone);
        assert SameAt(restored, base, gone);
      }
    }
  }

  /** A leaked table has no journal row, and no journal row names its snapshot. */
  ghost predicate Stray(db: Db, table: Name, name: SnapshotName) {
    !Journaled(db, table) && name in db.snapshots && forall j | j in db.journal :: db.journal[j] != name
  }

  /** Whatever part of a statement on a table without a journal row is done, recovery keeps it. */
  lemma StraySafe(db: Db, after: Db, full: Db, settled: Tables, table: Name)
    requires Recoverable(db, settled) && table in settled && !Journaled(db, table)
    requires full == db.(tables := full.tables) && full.tables.Keys == db.tables.Keys
    requires forall t | t in db.tables && t != table :: full.tables[t] == db.tables[t]
    requires Torn(db, after, full)
    ensures after == db.(tables := after.tables) && table in after.tables
    ensures forall t | t in db.tables && t != table :: after.tables[t] == db.tables[t]
    ensures Recoverable(after, settled[table := after.tables[table]])
    ensures Part(after.tables[table], db.tables[table], full.tables[table])
  {
    hide Covers, SameAt;
    TornTables(db, after, full, table);
    var now := settled[table := after.tables[table]];
    forall i | i in after.journal
      ensures Covers(after, i.tx, i.table, after.snapshots[after.journal[i]], now[i.table])
    {
      CoversCarried(db, after, i.tx, i.table, db.snapshots[db.journal[i]], settled[i.table]);
    }
    assert forall t :: Journaled(after, t) == Journaled(db, t);
  }

  lemma SafeAnywhere(db: Db, after: Db, full: Db, base: Tables)
    requires Safe(db, full, base) && Torn(db, after, full)
    ensures Recoverable(after, base)
  {
  }

  /** `RestoreSafe` for a table whose snapshot is still there. */
  lemma RestorableSafe(db: Db, base: Tables, tx: Name, table: Name, name: SnapshotName)
    requires table in db.tables && name in db.snapshots && Recoverable(db, base) && MayRestore(db, tx, table, name)
    ensures table in base
    ensures Safe(db, DeleteRecordedRows(db, tx, table), base)
    ensures Safe(DeleteRecordedRows(db, tx, table), InsertSnapshotRows(DeleteRecordedRows(db, tx, table), table, name),
                 base)
    ensures InsertSnapshotRows(DeleteRecordedRows(db, tx, table), table, name).tables[table] == base[table]
  {
    hide Safe;
    RestoreSafe(db, base, JournalKey(tx, table));
  }

  /** A stray snapshot before its table is touched. */
  lemma StrayStart(db: Db, base: Tables, tx: Name, table: Name, name: SnapshotName)
    requires Recoverable(db, base) && table in base && Stray(db, table, name)
    ensures table in db.tables && base[table := db.tables[table]] == base
    ensures Outcome(db, tx, table, name, db.tables[table], false)
  {
    assert db.tables[table] == base[table];
  }

  lemma OutcomeWeaker(db: Db, tx: Name, table: Name, name: SnapshotName, rows: Table, done: bool, done_: bool)
    requires table in db.tables && name in db.snapshots && Outcome(db, tx, table, name, rows, done) && (done_ ==> done)
    ensures Outcome(db, tx, table, name, rows, done_)
  {
  }

  /** After the first statement of a restore, or a part of it. */
  lemma FirstHalf(start: Db, db: Db, base: Tables, tx: Name, table: Name, name: SnapshotName)
    requires table in start.tables && name in start.snapshots && Torn(start, db, DeleteRecordedRows(start, tx, table))
    ensures db == start.(tables := db.tables) && db.tables.Keys == start.tables.Keys
    ensures forall t | t in start.tables && t != table :: db.tables[t] == start.tables[t]
    ensures Recoverable(start, base) && table in base && !Journaled(start, table) ==>
              Recoverable(db, base[table := db.tables[table]]) && !Journaled(db, table) &&
              Outcome(start, tx, table, name, db.tables[table], false)
  {
    hide Recoverable;
    var full := DeleteRecordedRows(start, tx, table);
    TornTables(start, db, full, table);
    if Recoverable(start, base) && table in base && !Journaled(start, table) {
      StraySafe(start, db, full, base, table);
    }
  }

  /** After its second statement, or a part of it. */
  lemma SecondHalf(start: Db, db: Db, base: Tables, tx: Name, table: Name, name: SnapshotName, ok: bool)
    requires table in start.tables && name in start.snapshots
    requires var cut := DeleteRecordedRows(start, tx, table);
             Torn(cut, db, InsertSnapshotRows(cut, table, name)) && (ok ==> db == InsertSnapshotRows(cut, table, name))
    ensures db == start.(tables := db.tables) && db.tables.Keys == start.tables.Keys
    ensures forall t | t in start.tables && t != table :: db.tables[t] == start.tables[t]
    ensures var cut := DeleteRecordedRows(start, tx, table);
            Recoverable(cut, base[table := cut.tables[table]]) && table in base && !Journaled(cut, table) ==>
              Recoverable(db, base[table := db.tables[table]]) && Outcome(start, tx, table, name, db.tables[table], ok)
  {
    hide Recoverable;
    var cut := DeleteRecordedRows(start, tx, table);
    var full := InsertSnapshotRows(cut, table, name);
    TornTables(cut, db, full, table);
    if Recoverable(cut, base[table := cut.tables[table]]) && table in base && !Journaled(cut, table) {
      StraySafe(cut, db, full, base[table := cut.tables[table]], table);
      assert base[table := cut.tables[table]][table := db.tables[table]] == base[table := db.tables[table]];
    }
  }

  lemma OutcomeBefore(db: Db, tx: Name, table: Name, name: SnapshotName)
    requires table in db.tables && name in db.snapshots
    ensures Outcome(db, tx, table, name, db.tables[table], false)
  {
  }

  /** The outcome depends on the table, its snapshot and its key records only. */
  lemma OutcomeSame(start: Db, db: Db, tx: Name, table: Name, name: SnapshotName, rows: Table, done: bool)
    requires table in db.tables && name in db.snapshots && Outcome(db, tx, table, name, rows, done)
    requires table in start.tables && name in start.snapshots
    requires db.tables[table] == start.tables[table] && db.snapshots[name] == start.snapshots[name]
    requires forall k :: Recorded(db, tx, table, k) == Recorded(start, tx, table, k)
    ensures Outcome(start, tx, table, name, rows, done)
  {
    assert CutRows(db, tx, table) == CutRows(start, tx, table);
  }

  // ---- The loop of a commit ----

  /**
   During a commit: the tables in `left` are still journaled; the others have lost their journal
   row, and their snapshot too unless it leaked.
   */
  ghost predicate AwaitCommit(db: Db, tx: Name, snapshots: map<Name, SnapshotName>, left: set<Name>, base: Tables) {
    && (forall t | t in left ::
      t in snapshots && JournalKey(tx, t) in db.journal && db.journal[JournalKey(tx, t)] == snapshots[t])
    && (forall j | j in db.journal :: j.tx == tx && j.table in left)
    && (forall t | t in snapshots && t !in left ::
      snapshots[t] !in db.snapshots || (t in base && Leaks(db, tx, t, snapshots[t], base[t])))
    && (forall t, u | t in snapshots && u in snapshots && t != u :: snapshots[t] != snapshots[u])
  }

  /** The committed tables whose snapshot is still there. */
  function Leaked(db: Db, snapshots: map<Name, SnapshotName>, left: set<Name>): set<Name> {
    set t | t in snapshots && t !in left && snapshots[t] in db.snapshots
  }

  /** Journaled tables settle on the old rows, the others on the new ones. */
  ghost predicate Settles(db: Db, tx: Name, settled: Tables, base: Tables, new_: Tables) {
    && settled.Keys == new_.Keys == base.Keys
    && (forall j | j in db.journal :: j.tx == tx)
    && forall t | t in base :: settled[t] == if JournalKey(tx, t) in db.journal then base[t] else new_[t]
  }

  /** Each table of `settled` is the old or the new one. */
  ghost predicate OldOrNew(settled: Tables, base: Tables, new_: Tables) {
    && settled.Keys == base.Keys == new_.Keys
    && forall t | t in settled :: settled[t] == base[t] || settled[t] == new_[t]
  }

  lemma OldIsOld(base: Tables, new_: Tables)
    requires new_.Keys == base.Keys
    ensures OldOrNew(base, base, new_)
  {
  }

  lemma StartsOld(db: Db, tx: Name, snapshots: map<Name, SnapshotName>, base: Tables)
    requires InStep(db, tx, snapshots) && Recoverable(db, base)
    ensures Settles(db, tx, base, base, db.tables) && AwaitCommit(db, tx, snapshots, snapshots.Keys, base)
  {
    InStepRestores(db, base, tx, snapshots);
    forall t | t in base && JournalKey(tx, t) !in db.journal ensures base[t] == db.tables[t] {
      JournaledBy(db, tx, t);
    }
  }

  lemma SettlesAll(db: Db, tx: Name, settled: Tables, base: Tables, new_: Tables)
    requires Settles(db, tx, settled, base, new_)
    ensures OldOrNew(settled, base, new_)
    ensures forall t | t in base :: settled[t] == if Journaled(db, t) then base[t] else new_[t]
  {
    forall t | t in base ensures Journaled(db, t) <==> JournalKey(tx, t) in db.journal {
      JournaledBy(db, tx, t);
    }
  }

  /** A table a transaction has not touched is the same, old and new. */
  lemma UntouchedSame(db: Db, tx: Name, snapshots: map<Name, SnapshotName>, base: Tables)
    requires InStep(db, tx, snapshots) && Recoverable(db, base)
    ensures db.tables.Keys == base.Keys
    ensures forall t | t in base && t !in snapshots :: db.tables[t] == base[t]
  {
    forall t | t in base && t !in snapshots ensures db.tables[t] == base[t] {
      assert !Journaled(db, t);
    }
  }

  lemma SettledByJournal(db: Db, tx: Name, settled: Tables, base: Tables, new_: Tables)
    requires Settles(db, tx, settled, base, new_)
    ensures forall t | t in base :: settled[t] == if JournalKey(tx, t) in db.journal then base[t] else new_[t]
  {
  }

  lemma SettledOld(db: Db, tx: Name, settled: Tables, base: Tables, new_: Tables, t: Name)
    requires Settles(db, tx, settled, base, new_) && t in base && JournalKey(tx, t) in db.journal
    ensures t in settled && settled[t] == base[t]
  {
  }

  lemma SettledKeys(db: Db, tx: Name, settled: Tables, base: Tables, new_: Tables)
    requires Settles(db, tx, settled, base, new_)
    ensures settled.Keys == new_.Keys == base.Keys
  {
  }

  /** One committed table takes one journal row away and settles on its new rows. */
  lemma SettleStep(db: Db, after: Db, tx: Name, settled: Tables, base: Tables, new_: Tables, t: Name)
    requires Settles(db, tx, settled, base, new_) && t in base
    requires after.journal == db.journal || after.journal == db.journal - {JournalKey(tx, t)}
    ensures Settles(after, tx, Settled(db, after, tx, settled, new_, t), base, new_)
  {
  }

  ghost function Settled(db: Db, after: Db, tx: Name, settled: Tables, new_: Tables, t: Name): Tables
    requires t in new_
  {
    if JournalKey(tx, t) in db.journal && JournalKey(tx, t) !in after.journal then settled[t := new_[t]] else settled
  }

  /** Nothing but the undo records and the snapshot of one table has changed. */
  ghost predicate OnlyTable(db: Db, after: Db, tx: Name, table: Name, name: SnapshotName) {
    && OnlyForgets(db, after, tx, table, name)
    && after.tables.Keys == db.tables.Keys &&
      (forall t | t in db.tables && t != table :: after.tables[t] == db.tables[t])
    && (forall r: KeyRecord :: (r.tx != tx || r.table != table) ==> (r in after.keys <==> r in db.keys))
  }

  lemma OnlyTableForgets(db: Db, after: Db, tx: Name, table: Name, name: SnapshotName)
    requires OnlyTable(db, after, tx, table, name)
    ensures OnlyForgets(db, after, tx, table, name) && after.tables.Keys == db.tables.Keys
  {
  }

  lemma OnlyTableTwice(a: Db, b: Db, c: Db, tx: Name, table: Name, name: SnapshotName)
    requires OnlyTable(a, b, tx, table, name) && OnlyTable(b, c, tx, table, name)
    ensures OnlyTable(a, c, tx, table, name)
  {
  }

  lemma RowsOnly(db: Db, after: Db, tx: Name, table: Name, name: SnapshotName)
    requires after == db.(tables := after.tables) && after.tables.Keys == db.tables.Keys
    requires forall t | t in db.tables && t != table :: after.tables[t] == db.tables[t]
    ensures OnlyTable(db, after, tx, table, name)
  {
  }

  lemma FewerKeys(db: Db, after: Db, tx: Name, table: Name, name: SnapshotName)
    requires Torn(db, after, DeleteKeys(db, tx, table))
    ensures OnlyTable(db, after, tx, table, name)
  {
    TornTablesUnchanged(db, after, DeleteKeys(db, tx, table));
  }

  /** The three statements that forget a table change nothing else. */
  lemma ForgottenInPart(db: Db, tx: Name, table: Name, name: SnapshotName)
    ensures OnlyTable(db, db, tx, table, name)
    ensures OnlyTable(db, DeleteKeys(db, tx, table), tx, table, name)
    ensures var gone := DeleteJournal(DeleteKeys(db, tx, table), tx, table);
            OnlyTable(db, gone, tx, table, name) && OnlyTable(db, DropSnapshot(gone, name), tx, table, name)
  {
  }

  /** A leaked table stays as it is while others are dealt with. */
  lemma LeaksStay(db: Db, after: Db, tx: Name, t: Name, name: SnapshotName, u: Name, other: SnapshotName, base: Table)
    requires OnlyTable(db, after, tx, t, name) && u != t && other != name && Leaks(db, tx, u, other, base)
    ensures Leaks(after, tx, u, other, base)
    ensures after.tables[u] == db.tables[u] && after.snapshots[other] == db.snapshots[other]
    ensures forall k :: Recorded(after, tx, u, k) == Recorded(db, tx, u, k)
  {
    assert forall k :: Recorded(after, tx, u, k) == Recorded(db, tx, u, k);
  }

  /** A stray snapshot stays one while other tables are dealt with. */
  lemma StrayStays(db: Db, after: Db, tx: Name, t: Name, name: SnapshotName, u: Name, other: SnapshotName)
    requires OnlyTable(db, after, tx, t, name) && u != t && other != name && u in db.tables && Stray(db, u, other)
    ensures u in after.tables && Stray(after, u, other)
    ensures after.tables[u] == db.tables[u] && after.snapshots[other] == db.snapshots[other]
    ensures forall k :: Recorded(after, tx, u, k) == Recorded(db, tx, u, k)
  {
  }

  /** Without its journal row a committed table leaks until its snapshot is gone. */
  lemma CommittedLeaks(db: Db, settled: Tables, tx: Name, t: Name, name: SnapshotName)
    requires Recoverable(db, settled) && JournalKey(tx, t) in db.journal && db.journal[JournalKey(tx, t)] == name
    ensures t in settled && Leaks(DeleteJournal(db, tx, t), tx, t, name, settled[t])
  {
    assert Covers(db, tx, t, db.snapshots[name], settled[t]);
    CoversSaved(db, tx, t, db.snapshots[name], settled[t]);
  }

  /** Losing key records, any or all of them, does not change that. */
  lemma StillLeaks(db: Db, after: Db, tx: Name, t: Name, name: SnapshotName, base: Table)
    requires Leaks(db, tx, t, name, base) && Torn(db, after, DeleteKeys(db, tx, t))
    ensures Leaks(after, tx, t, name, base)
  {
    TornTablesUnchanged(db, after, DeleteKeys(db, tx, t));
  }

  lemma JournalOnly(db: Db, tx: Name, t: Name, name: SnapshotName)
    ensures OnlyTable(db, db, tx, t, name) && OnlyTable(db, DeleteJournal(db, tx, t), tx, t, name)
    ensures forall k :: Recorded(DeleteJournal(db, tx, t), tx, t, k) == Recorded(db, tx, t, k)
  {
  }

  /** Dropping a snapshot, or failing to, changes nothing else. */
  lemma SnapshotOnly(db: Db, after: Db, tx: Name, t: Name, name: SnapshotName)
    requires Torn(db, after, DropSnapshot(db, name))
    ensures after == db || after == DropSnapshot(db, name)
    ensures OnlyTable(db, after, tx, t, name) && after.tables == db.tables && after.journal == db.journal
    ensures forall k :: Recorded(after, tx, t, k) == Recorded(db, tx, t, k)
    ensures name !in after.snapshots || after == db
  {
    TornAtomic(db, after, DropSnapshot(db, name));
  }

  lemma AwaitStep(db: Db, after: Db, tx: Name, snapshots: map<Name, SnapshotName>, left: set<Name>, base: Tables,
                  t: Name)
    requires AwaitCommit(db, tx, snapshots, left, base) && t in left && t in base
    requires after.journal == db.journal - {JournalKey(tx, t)} && after.tables == db.tables
    requires OnlyTable(db, after, tx, t, snapshots[t])
    requires snapshots[t] !in after.snapshots || Leaks(after, tx, t, snapshots[t], base[t])
    ensures AwaitCommit(after, tx, snapshots, left - {t}, base)
  {
    hide Leaks;
    forall u | u in snapshots && u !in left - {t} && snapshots[u] in after.snapshots
      ensures u in base && Leaks(after, tx, u, snapshots[u], base[u])
    {
      if u != t {
        LeaksStay(db, after, tx, t, snapshots[t], u, snapshots[u], base[u]);
      }
    }
  }

  /** What is left of the transaction may be restored, except for the leaked tables, which may be rewritten. */
  lemma AwaitRestores(db: Db, tx: Name, snapshots: map<Name, SnapshotName>, left: set<Name>, base: Tables)
    requires AwaitCommit(db, tx, snapshots, left, base)
    ensures forall t | t in snapshots && t !in Leaked(db, snapshots, left) :: MayRestore(db, tx, t, snapshots[t])
    ensures forall t | t in Leaked(db, snapshots, left) ::
              t in base && Stray(db, t, snapshots[t]) && Leaks(db, tx, t, snapshots[t], base[t])
    ensures forall t, u | t in snapshots && u in snapshots && t != u :: snapshots[t] != snapshots[u]
  {
    hide Leaks;
    forall t | t in Leaked(db, snapshots, left) ensures Stray(db, t, snapshots[t]) {
      forall j | j in db.journal ensures db.journal[j] != snapshots[t] && j.table != t {
        assert j == JournalKey(tx, j.table);
      }
    }
  }

  /** The leaked tables have lost their journal row. */
  lemma LeakedCommitted(db: Db, tx: Name, snapshots: map<Name, SnapshotName>, left: set<Name>, base: Tables)
    requires AwaitCommit(db, tx, snapshots, left, base)
    ensures forall t | t in Leaked(db, snapshots, left) :: JournalKey(tx, t) !in db.journal
  {
  }

  lemma AwaitsEach(db: Db, tx: Name, snapshots: map<Name, SnapshotName>, left: set<Name>, base: Tables, t: Name)
    requires AwaitCommit(db, tx, snapshots, left, base) && t in left
    ensures t in snapshots && JournalKey(tx, t) in db.journal && db.journal[JournalKey(tx, t)] == snapshots[t]
  {
  }

  lemma AwaitNothing(db: Db, tx: Name, snapshots: map<Name, SnapshotName>, base: Tables)
    requires AwaitCommit(db, tx, snapshots, {}, base)
    ensures db.journal == map[]
  {
  }

  /** Running mutations one after another; every one must name an existing table. */
  function Run(tables: Tables, ms: seq<Mutation>): (r: Tables)
    ensures r.Keys == tables.Keys
    decreases |ms|
  {
    if ms == [] then tables
    else
      var before := Run(tables, ms[..|ms| - 1]);
      var m := ms[|ms| - 1];
      if m.table in before then before[m.table := m.Apply(before[m.table])] else before
  }
}
