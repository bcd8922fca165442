/**
 The undo-log transaction of the ClickHouse backend and its start-up recovery.

 Every SQL statement goes through `Backend.Exec`. A statement succeeds, or is refused and leaves
 the store alone, or is the last one before a crash: then any part of its effect may be durable
 and every later statement fails. A statement that changes rows or key records goes through
 `Backend.Alter` and may also fail after part of its work. Running the methods below with that
 connection therefore covers a crash between any two statements and inside any statement.
 */
module UndoLog {
  import opened Collections
  import opened UndoLogStore

  /** How a planned statement fails: without effect, or having deleted all key records but some. */
  datatype Fault = Refused | Kept(keys: set<KeyRecord>)

  class Backend {
    var db: Db
    var crashed: bool
    var locked: bool
    /** The number of statements and queries so far. */
    var step: nat
    /**
     Without a plan every statement and query may fail and the store may crash at any of them. A
     plan settles that: exactly the listed ones fail, each in its way, and the store stays up.
     */
    var plan: Option<map<nat, Fault>>

    constructor (db: Db)
      ensures this.db == db && !crashed && !locked && plan == None
    {
      this.db, crashed, locked, step, plan := db, false, false, 0, None;
    }

    /** Nothing will be refused any more. */
    ghost predicate Steady()
      reads `crashed, `step, `plan
    {
      !crashed && plan.Some? && forall n | n in plan.value :: n < step
    }

    /** Runs one statement whose whole effect is `full`. */
    method Exec(full: Db) returns (ok: bool)
      requires full.tables.Keys == db.tables.Keys
      modifies `db, `crashed, `step
      ensures old(crashed) ==> !ok && crashed && db == old(db)
      ensures ok ==> !crashed && db == full
      ensures !ok && !crashed ==> db == old(db)
      ensures step == old(step) + 1
      ensures plan.Some? && !old(crashed) ==> !crashed && (ok <==> old(step) !in plan.value)
      ensures Torn(old(db), db, full)
    {
      var n := step;
      step := step + 1;
      if crashed {
        return false;
      }
      if plan.Some? {
        if n in plan.value { return false; }
      } else {
        if * {
          return false;
        }
        if * {
          crashed := true;
          var left: Db := *;
          if Torn(db, left, full) {
            db := left;
          }
          return false;
        }
      }
      db := full;
      return true;
    }

    /** Runs one statement; if it is safe for `base`, recovery still ends with `base`. */
    method Step(full: Db, ghost base: Tables) returns (ok: bool)
      requires full.tables.Keys == db.tables.Keys
      modifies `db, `crashed, `step
      ensures old(crashed) ==> !ok && crashed && db == old(db)
      ensures ok ==> !crashed && db == full
      ensures !ok && !crashed ==> db == old(db)
      ensures old(Safe(db, full, base)) ==> Recoverable(db, base)
      ensures db.journal == old(db.journal) || db.journal == full.journal
      ensures db.tables.Keys == old(db.tables).Keys
      ensures full.tables == old(db.tables) ==> db.tables == old(db.tables)
      ensures step == old(step) + 1
      ensures plan.Some? && !old(crashed) ==> !crashed && (ok <==> old(step) !in plan.value)
      ensures Torn(old(db), db, full)
    {
      ghost var before := db;
      ok := Exec(full);
      if full.tables == before.tables { TornTablesUnchanged(before, db, full); }
    }

    /**
     A statement that changes rows or key records. It may also fail after part of its work, with
     the store still up.
     */
    method Alter(full: Db, ghost base: Tables) returns (ok: bool)
      requires full == db.(tables := full.tables, keys := full.keys) && full.tables.Keys == db.tables.Keys
      modifies `db, `crashed, `step
      ensures old(crashed) ==> !ok && crashed && db == old(db)
      ensures ok ==> !crashed && db == full
      ensures Torn(old(db), db, full)
      ensures db == old(db).(tables := db.tables, keys := db.keys)
      ensures full.tables == old(db.tables) ==> db.tables == old(db.tables)
      ensures full.keys == old(db.keys) ==> db.keys == old(db.keys)
      ensures old(Safe(db, full, base)) ==> Recoverable(db, base)
      ensures step == old(step) + 1
      ensures plan.Some? && !old(crashed) ==> !crashed && (ok <==> old(step) !in plan.value)
      ensures plan.Some? && !old(crashed) && full.tables == old(db.tables) && full.keys <= old(db.keys) ==>
                forall r :: r in db.keys <==> r in full.keys || (r in old(db.keys) && KeptBy(plan.value, old(step), r))
    {
      hide Safe, Recoverable;
      ghost var before := db;
      var n := step;
      ok := Exec(full);
      if !ok && !crashed {
        if plan == None {
          var left: Db := *;
          if Torn(db, left, full) {
            db := left;
          }
        } else if plan.value[n].Kept? && full.keys <= db.keys {
          db := db.(keys := full.keys + db.keys * plan.value[n].keys);
        }
      }
      if full.tables == before.tables { TornTablesUnchanged(before, db, full); }
      if Safe(before, full, base) { SafeAnywhere(before, db, full, base); }
    }

    /** The statement of a mutation. */
    method Change(m: Mutation, ghost base: Tables) returns (ok: bool)
      requires m.table in db.tables
      modifies `db, `crashed, `step
      ensures ok ==> !crashed && db == Mutate(old(db), m)
      ensures db == old(db).(tables := db.tables) && PartlyChanged(old(db.tables), db.tables, m)
      ensures old(Safe(db, Mutate(db, m), base)) ==> Recoverable(db, base)
      ensures step >= old(step) && (old(Steady()) ==> ok && Steady())
    {
      hide Safe, Recoverable, Torn, PartlyChanged;
      ghost var before := db;
      ok := Alter(Mutate(db, m), base);
      ChangedInPart(before, db, m);
    }

    /** A query; it fails on a crashed connection and may fail on any other. */
    method Query() returns (ok: bool)
      modifies `step
      ensures crashed ==> !ok
      ensures step == old(step) + 1
      ensures plan.Some? && !crashed ==> (ok <==> old(step) !in plan.value)
    {
      var n := step;
      step := step + 1;
      if crashed {
        return false;
      }
      if plan.Some? { return n !in plan.value; }
      ok := *;
    }

    /** The keys a mutation names, in whatever order the query returns them. */
    method MutationKeys(m: Mutation) returns (ok: bool, keys: seq<RowKey>)
      requires m.table in db.tables
      modifies `step
      ensures crashed && !m.Insert? ==> !ok
      ensures step >= old(step) && (old(Steady()) ==> ok)
      ensures ok ==> forall k :: k in keys <==> k in m.Keys(db.tables[m.table])
    {
      keys := [];
      if m.Insert? {
        ok := true;
        for i := 0 to |m.rows|
          invariant forall k :: k in keys <==> exists j :: 0 <= j < i && m.rows[j].0 == k
        {
          keys := keys + [m.rows[i].0];
        }
        return;
      }
      ok := Query();
      if ok {
        var left := m.Keys(db.tables[m.table]);
        while left != {}
          invariant forall k :: k in m.Keys(db.tables[m.table]) <==> k in keys || k in left
          decreases |left|
        {
          var k :| k in left;
          keys, left := keys + [k], left - {k};
        }
      }
    }

    /** Deletes the recorded rows of one table and re-inserts its snapshot. */
    method RestoreRows(tx: Name, table: Name, name: SnapshotName, ghost base: Tables) returns (ok: bool)
      requires table in db.tables && name in db.snapshots
      modifies `db, `crashed, `step
      ensures old(crashed) ==> !ok && crashed && db == old(db)
      ensures ok ==> !crashed && db == InsertSnapshotRows(DeleteRecordedRows(old(db), tx, table), table, name)
      ensures old(Recoverable(db, base) && MayRestore(db, tx, table, name)) ==>
                Recoverable(db, base) && (ok ==> db.tables[table] == base[table])
      ensures old(Recoverable(db, base) && table in base && !Journaled(db, table)) ==>
                table in db.tables && Recoverable(db, base[table := db.tables[table]]) &&
                Outcome(old(db), tx, table, name, db.tables[table], ok)
      ensures db == old(db).(tables := db.tables) && db.tables.Keys == old(db.tables).Keys
      ensures forall t | t in old(db.tables) && t != table :: db.tables[t] == old(db.tables)[t]
      ensures step >= old(step) && (old(Steady()) ==> ok && Steady())
    {
      hide Recoverable, Safe, Torn, Journaled, MayRestore;
      ghost var start := db;
      if Recoverable(db, base) && MayRestore(db, tx, table, name) {
        RestorableSafe(db, base, tx, table, name);
      }
      ok := Alter(DeleteRecordedRows(db, tx, table), base);
      FirstHalf(start, db, base, tx, table, name);
      if ok {
        ok := Alter(InsertSnapshotRows(db, table, name), base);
        SecondHalf(start, db, base, tx, table, name, ok);
      }
    }

    /** Removes the key records, the journal row and, if there is one, the snapshot of a table. */
    method ForgetTable(tx: Name, table: Name, name: SnapshotName, existed: bool, ghost base: Tables) returns (ok: bool)
      modifies `db, `crashed, `step
      ensures old(crashed) ==> !ok && crashed && db == old(db)
      ensures ok ==> !crashed && db == (var gone := DeleteJournal(DeleteKeys(old(db), tx, table), tx, table);
                                       if existed then DropSnapshot(gone, name) else gone)
      ensures old(Recoverable(db, base) && table in base && (db.tables[table] == base[table] || !Journaled(db, table))
                  && forall j | j in db.journal && db.journal[j] == name :: j == JournalKey(tx, table))
              ==> Recoverable(db, base)
      ensures db.tables == old(db.tables)
      ensures !crashed ==> OnlyTable(old(db), db, tx, table, name)
      ensures step >= old(step) && (old(Steady()) ==> ok && Steady())
    {
      hide Torn, Recoverable, Safe, Journaled, OnlyTable;
      ForgottenInPart(db, tx, table, name);
      if Recoverable(db, base) { RecoverableDomain(db, base); }
      ghost var good := Recoverable(db, base) && table in base &&
        (db.tables[table] == base[table] || !Journaled(db, table))
                        && forall j | j in db.journal && db.journal[j] == name :: j == JournalKey(tx, table);
      if good {
        DeleteKeysSafe(db, base, JournalKey(tx, table));
      }
      ghost var start := db;
      ok := Alter(DeleteKeys(db, tx, table), base);
      FewerKeys(start, db, tx, table, name);
      if ok {
        ok := Step(DeleteJournal(db, tx, table), base);
        if ok && existed {
          if good {
            SnapshotSafe(db, DropSnapshot(db, name), base, name);
          }
          ok := Step(DropSnapshot(db, name), base);
        }
      }
    }

    /**
     Undoes the changes of one table and removes its undo records. A table without a journal row
     is rewritten from its snapshot as well, if there still is one.
     */
    method RestoreSnapshot(tx: Name, table: Name, name: SnapshotName, ghost base: Tables) returns (ok: bool)
      modifies `db, `crashed, `step
      ensures old(crashed) ==> !ok && crashed && db == old(db)
      ensures ok ==>
                (name in old(db.snapshots) ==> table in old(db.tables)) && !crashed &&
                  db == Restored(old(db), tx, table, name)
      ensures old(Recoverable(db, base) && table in base && MayRestore(db, tx, table, name)) ==> Recoverable(db, base)
      ensures old(Recoverable(db, base) && table in base && Stray(db, table, name)) ==>
                table in old(db.tables) && table in db.tables && Recoverable(db, base[table := db.tables[table]]) &&
                Outcome(old(db), tx, table, name, db.tables[table], ok)
      ensures !crashed ==> OnlyTable(old(db), db, tx, table, name)
      ensures step >= old(step) && (old(Steady() && table in db.tables) ==> ok && Steady())
    {
      hide Recoverable, Outcome, OnlyTable;
      ghost var start := db;
      ghost var stray := Recoverable(db, base) && table in base && Stray(db, table, name);
      RowsOnly(start, start, tx, table, name);
      if stray { StrayStart(start, base, tx, table, name); }
      ok := Query();
      if !ok { return; }
      var existed := name in db.snapshots;
      ghost var target := base;
      if existed {
        if table !in db.tables {
          return false;
        }
        ok := RestoreRows(tx, table, name, base);
        RowsOnly(start, db, tx, table, name);
        if stray { target := base[table := db.tables[table]]; }
        if !ok { return; }
        if stray { OutcomeWeaker(start, tx, table, name, db.tables[table], true, false); }
      }
      if Recoverable(db, target) { RecoverableDomain(db, target); }
      ghost var restored := db;
      ok := ForgetTable(tx, table, name, existed, target);
      if !crashed { OnlyTableTwice(start, restored, db, tx, table, name); }
    }

    /** Restores every journaled table, in whatever order the journal lists them. */
    method RestoreJournaled(ghost base: Tables) returns (ok: bool)
      modifies `db, `crashed, `step
      ensures old(crashed) ==> !ok && crashed && db == old(db)
      ensures ok ==> !crashed && db.journal == map[]
      ensures ok ==> forall n :: n in db.snapshots <==> n in old(db.snapshots) && n !in old(db.journal).Values
      ensures old(Recoverable(db, base)) ==> Recoverable(db, base)
    {
      hide Recoverable, Safe, Journaled, Outcome, OnlyTable, Stray, Restored;
      ghost var good := Recoverable(db, base);
      if good { RecoverableDomain(db, base); }
      ok := Query();
      if !ok { return; }
      var entries, left := db.journal, db.journal.Keys;
      ghost var gone: set<SnapshotName> := {};
      while left != {}
        invariant !crashed && left <= entries.Keys
        invariant good ==> Recoverable(db, base)
        invariant gone <= entries.Values && db.snapshots.Keys == old(db.snapshots).Keys - gone
        invariant forall j | j in entries && j !in left :: entries[j] in gone
        invariant db.journal.Keys == left && forall j | j in left :: db.journal[j] == entries[j]
        decreases |left|
      {
        var j :| j in left;
        assert JournalKey(j.tx, j.table) == j;
        ghost var before := db;
        ok := RestoreSnapshot(j.tx, j.table, entries[j], base);
        if !ok { return; }
        RestoredForgets(before, j.tx, j.table, entries[j]);
        left, gone := left - {j}, gone + {entries[j]};
      }
      assert db.journal == map[];
    }

    /** Drops the snapshot tables that no entry of the journal, as it was read, names. */
    method DropOrphans(active: set<SnapshotName>, ghost base: Tables) returns (ok: bool)
      modifies `db, `crashed, `step
      ensures old(crashed) ==> !ok && crashed && db == old(db)
      ensures ok ==>
                !crashed && db == old(db).(snapshots := db.snapshots) &&
                  db.snapshots.Keys == old(db.snapshots).Keys * active
      ensures old(Recoverable(db, base) && db.journal == map[]) ==> Recoverable(db, base)
    {
      hide Recoverable, Safe, Torn;
      ghost var good := Recoverable(db, base) && db.journal == map[];
      ok := Query();
      if !ok { return; }
      var orphans := db.snapshots.Keys - active;
      while orphans != {}
        invariant !crashed && orphans == db.snapshots.Keys - active
        invariant db == old(db).(snapshots := db.snapshots)
        invariant db.snapshots.Keys * active == old(db.snapshots).Keys * active
        invariant good ==> Recoverable(db, base)
        decreases |orphans|
      {
        var n :| n in orphans;
        if good {
          SnapshotSafe(db, DropSnapshot(db, n), base, n);
        }
        OneOrphanFewer(db.snapshots.Keys, active, n);
        Dropped(db, n);
        ok := Step(DropSnapshot(db, n), base);
        if !ok { return; }
        orphans := orphans - {n};
      }
      NoOrphan(db.snapshots.Keys, active);
    }

    /** Start-up recovery: undoes every journaled table, then removes what is left of the undo log. */
    method RecoverTransactions(ghost base: Tables) returns (ok: bool)
      modifies `db, `crashed, `step
      ensures old(crashed) ==> !ok && crashed && db == old(db)
      ensures ok ==> !crashed && db.journal == map[] && db.snapshots == map[] && db.keys == {}
      ensures old(Recoverable(db, base)) ==> Recoverable(db, base) && (ok ==> db.tables == base)
    {
      hide Recoverable, Safe;
      ghost var good := Recoverable(db, base);
      if good { RecoverableDomain(db, base); }
      var active := db.journal.Values;
      ok := RestoreJournaled(base);
      if !ok { return; }
      ok := DropOrphans(active, base);
      if !ok { return; }
      if good {
        NothingJournaled(db, base);
      }
      ok := Alter(DeleteOrphanKeys(db), base);
    }

    /** Creates the snapshot table of an untouched table and journals it; a refusal leaves no journal row. */
    method OpenSnapshot(tx: Name, table: Name, name: SnapshotName, ghost base: Tables) returns (ok: bool)
      requires Recoverable(db, base) && table in base && !Journaled(db, table)
      requires forall j | j in db.journal :: db.journal[j] != name
      requires forall k :: !Recorded(db, tx, table, k)
      modifies `db, `crashed, `step
      ensures Recoverable(db, base)
      ensures old(crashed) ==> crashed && !ok && db == old(db)
      ensures ok ==> !crashed && db == InsertJournal(CreateSnapshot(old(db), name), tx, table, name)
      ensures !ok && !crashed ==> db == old(db).(snapshots := db.snapshots)
      ensures step >= old(step) && (old(Steady()) && name !in old(db).snapshots ==> ok && Steady())
    {
      hide Torn, Recoverable, Safe;
      if name in db.snapshots {
        return false;
      }
      OpenSafe(db, base, JournalKey(tx, table), name);
      ok := Step(CreateSnapshot(db, name), base);
      if !ok { return; }
      ok := Step(InsertJournal(db, tx, table, name), base);
      if !ok {
        if !crashed {
          SnapshotSafe(db, DropSnapshot(db, name), base, name);
        }
        var dropped := Step(DropSnapshot(db, name), base);
      }
    }

    /** Copies the row of one key into the snapshot and records the key, unless it is recorded already. */
    method SaveRow(tx: Name, table: Name, name: SnapshotName, key: RowKey, ghost base: Tables) returns (ok: bool)
      requires Recoverable(db, base) && JournalKey(tx, table) in db.journal && db.journal[JournalKey(tx, table)] == name
      modifies `db, `crashed, `step
      ensures Recoverable(db, base)
      ensures old(crashed) ==> crashed && !ok && db == old(db)
      ensures !crashed ==> db.tables == old(db.tables) && db.journal == old(db.journal)
      ensures !crashed ==> old(db.keys) <= db.keys <= old(db.keys) + {KeyRecord(tx, table, key)}
      ensures ok ==> !crashed && Recorded(db, tx, table, key)
      ensures !crashed ==> db.snapshots.Keys == old(db.snapshots).Keys
      ensures step >= old(step) && (old(Steady()) ==> ok && Steady())
    {
      hide Torn, Recoverable, Safe;
      RecoverableDomain(db, base);
      ok := Query();
      if !ok || Recorded(db, tx, table, key) {
        return;
      }
      CopySafe(db, base, JournalKey(tx, table), key);
      ok := Step(CopyRow(db, name, table, key), base);
      if !ok { return; }
      RecordSafe(db, base, JournalKey(tx, table), key);
      ok := Step(InsertKey(db, tx, table, key), base);
    }

    /** Saves every row a mutation may change. */
    method SaveRows(tx: Name, name: SnapshotName, m: Mutation, ghost base: Tables) returns (ok: bool)
      requires Recoverable(db, base) && JournalKey(tx, m.table) in db.journal &&
               db.journal[JournalKey(tx, m.table)] == name
      modifies `db, `crashed, `step
      ensures Recoverable(db, base)
      ensures old(crashed) ==> crashed && !ok && db == old(db)
      ensures ok ==> !crashed && forall k | k in m.Keys(old(db.tables)[m.table]) :: Recorded(db, tx, m.table, k)
      ensures !crashed ==> db.tables == old(db.tables) && db.journal == old(db.journal)
      ensures !crashed ==> forall r | r in db.keys :: r in old(db.keys) || (r.tx == tx && r.table == m.table)
      ensures !crashed ==> db.snapshots.Keys == old(db.snapshots).Keys
      ensures step >= old(step) && (old(Steady()) ==> ok && Steady())
    {
      hide Recoverable;
      RecoverableDomain(db, base);
      var keys;
      ok, keys := MutationKeys(m);
      if !ok || crashed { return false; }
      for i := 0 to |keys|
        invariant !crashed && Recoverable(db, base) && db.journal == old(db.journal) && db.tables == old(db.tables)
        invariant forall h | 0 <= h < i :: Recorded(db, tx, m.table, keys[h])
        invariant forall r | r in db.keys :: r in old(db.keys) || (r.tx == tx && r.table == m.table)
        invariant db.snapshots.Keys == old(db.snapshots).Keys
        invariant step >= old(step) && ok && (old(Steady()) ==> Steady())
      {
        ok := SaveRow(tx, m.table, name, keys[i], base);
        if !ok { return; }
      }
    }
  }

  /** Whether a key record outlives statement `n`, which is to delete it. */
  predicate KeptBy(faults: map<nat, Fault>, n: nat, r: KeyRecord) {
    n in faults && (faults[n].Refused? || r in faults[n].keys)
  }

  datatype Result = Done | TxDone | Failed

  lemma OneOrphanFewer(names: set<SnapshotName>, active: set<SnapshotName>, n: SnapshotName)
    requires n in names - active
    ensures names - {n} - active == names - active - {n} && (names - {n}) * active == names * active
  {
  }

  lemma NoOrphan(names: set<SnapshotName>, active: set<SnapshotName>)
    requires names - active == {}
    ensures names == names * active
  {
    assert names == (names - active) + names * active;
  }

  lemma Dropped(db: Db, n: SnapshotName)
    ensures DropSnapshot(db, n).snapshots.Keys == db.snapshots.Keys - {n}
  {
    assert (db.snapshots - {n}).Keys == db.snapshots.Keys - {n};
  }

  class Transaction {
    const backend: Backend
    const id: Name
    var snapshots: map<Name, SnapshotName>
    var closed: bool
    /** The tables as they were when the transaction began. */
    ghost const base: Tables

    ghost predicate Valid()
      reads this, backend
    {
      !closed ==>
        && backend.locked
        && snapshots.Keys <= base.Keys
        && Recoverable(backend.db, base)
        && (!backend.crashed ==> InStep(backend.db, id, snapshots))
    }

    /** Takes the store's lock. The identifier is a fresh random one. */
    constructor (backend: Backend, id: Name)
      requires !backend.locked && backend.db.journal == map[]
      requires forall r | r in backend.db.keys :: r.tx != id
      modifies backend`locked
      ensures Valid() && !closed && this.backend == backend && this.id == id && snapshots == map[]
      ensures base == backend.db.tables && backend.locked
    {
      this.backend, this.id, snapshots, closed := backend, id, map[], false;
      base := backend.db.tables;
      new;
      backend.locked := true;
    }

    /** No snapshot table has the name the next one will get. */
    predicate NameFree(table: Name)
      reads this, backend
    {
      table in snapshots || SnapshotName(id, |snapshots|) !in backend.db.snapshots
    }

    /** First touch of a table: its snapshot table and its journal row. */
    method EnsureOpen(table: Name) returns (ok: bool)
      requires Valid() && !closed && table in base && !backend.crashed
      modifies this`snapshots, backend`db, backend`crashed, backend`step
      ensures Valid()
      ensures ok ==> !backend.crashed && table in snapshots
      ensures !backend.crashed ==> backend.db.tables == old(backend.db.tables)
      ensures ok ==>
                snapshots == if table in old(snapshots) then old(snapshots)
                  else old(snapshots)[table := SnapshotName(id, |old(snapshots)|)]
      ensures ok ==> backend.db.snapshots.Keys <= old(backend.db.snapshots).Keys + {SnapshotName(id, |old(snapshots)|)}
      ensures backend.step >= old(backend.step)
      ensures old(backend.Steady() && NameFree(table)) ==> ok && backend.Steady()
    {
      hide Recoverable, InStep, Journaled;
      if table in snapshots {
        return true;
      }
      var name := SnapshotName(id, |snapshots|);
      Untouched(backend.db, id, snapshots, table);
      InStepOpened(backend.db, id, snapshots, table, name);
      ok := backend.OpenSnapshot(id, table, name, base);
      if ok {
        snapshots := snapshots[table := name];
      } else if !backend.crashed {
        InStepKept(old(backend.db), backend.db, id, snapshots);
      }
    }

    /**
     Saves what a mutation may change before running it. When it fails, each row of the table is
     what it was or what the mutation makes of it, and no other table has changed.
     */
    method Exec(m: Mutation) returns (result: Result)
      requires Valid()
      modifies this`snapshots, backend`db, backend`crashed, backend`step
      ensures Valid()
      ensures result.TxDone? <==> closed
      ensures result.TxDone? ==> backend.db == old(backend.db) && backend.crashed == old(backend.crashed)
      ensures result.Done? ==>
                m.table in old(backend.db.tables) && !backend.crashed &&
                  backend.db.tables == Mutate(old(backend.db), m).tables
      ensures result.Failed? && !backend.crashed ==> PartlyChanged(old(backend.db.tables), backend.db.tables, m)
      ensures result.Done? ==>
                snapshots == if m.table in old(snapshots) then old(snapshots)
                  else old(snapshots)[m.table := SnapshotName(id, |old(snapshots)|)]
      ensures result.Done? ==>
                backend.db.snapshots.Keys <= old(backend.db.snapshots).Keys + {SnapshotName(id, |old(snapshots)|)}
      ensures old(backend.Steady() && !closed && m.table in backend.db.tables && NameFree(m.table)) ==>
                result.Done? && backend.Steady()
    {
      hide Recoverable, InStep, Safe, Journaled, PartlyChanged, Torn;
      if closed {
        return TxDone;
      }
      RecoverableDomain(backend.db, base);
      NotChanged(backend.db.tables, m);
      if backend.crashed || m.table !in backend.db.tables {
        return Failed;
      }
      var ok := EnsureOpen(m.table);
      if !ok { return Failed; }
      InStepRestores(backend.db, base, id, snapshots);
      ghost var ready := backend.db;
      ok := backend.SaveRows(id, snapshots[m.table], m, base);
      if !backend.crashed { InStepKept(ready, backend.db, id, snapshots); }
      if !ok { return Failed; }
      ghost var saved := backend.db;
      MutationSafe(backend.db, base, JournalKey(id, m.table), m);
      ok := backend.Change(m, base);
      if !backend.crashed { InStepKept(saved, backend.db, id, snapshots); }
      return if ok then Done else Failed;
    }

    method Finish()
      modifies this`closed, backend`locked
      ensures closed && !backend.locked
    {
      closed := true;
      backend.locked := false;
    }

    /**
     Restores every table of the transaction; a table that fails does not stop the others. Tables
     in `leaked` have no journal row, and are rewritten from their snapshot.
     */
    method RestoreSnapshots(ghost settled: Tables, ghost leaked: set<Name>) returns (ok: bool, ghost final: Tables)
      modifies backend`db, backend`crashed, backend`step
      ensures old(backend.crashed) ==> backend.crashed && backend.db == old(backend.db) && final == settled
      ensures ok && snapshots != map[] ==> !backend.crashed
      ensures ok ==>
                forall t | t in snapshots ::
                  JournalKey(id, t) !in backend.db.journal && snapshots[t] !in backend.db.snapshots
      ensures !backend.crashed ==> forall j | j in backend.db.journal :: j in old(backend.db.journal)
      ensures old(MayRestoreAll(settled, leaked)) ==>
                Recoverable(backend.db, final) && final.Keys == settled.Keys &&
                  forall t | t in settled && t !in leaked :: final[t] == settled[t]
      ensures old(MayRestoreAll(settled, leaked) && !backend.crashed) ==> Rewritten(old(backend.db), leaked, final, ok)
      ensures backend.step >= old(backend.step)
      ensures old(backend.Steady() && snapshots.Keys <= backend.db.tables.Keys) ==> ok && backend.Steady()
    {
      hide Recoverable, Outcome, Restoring, MayRestoreAll;
      ghost var good := MayRestoreAll(settled, leaked);
      ghost var start, up := backend.db, !backend.crashed;
      ok, final := true, settled;
      var left := snapshots.Keys;
      if good { StartRestoring(settled, leaked, up); }
      while left != {}
        decreases |left|
        invariant left <= snapshots.Keys &&
                  (good ==> Restoring(backend.db, backend.crashed, start, settled, final, leaked, left, up, ok))
        invariant !up ==> backend.crashed && backend.db == start && final == settled
        invariant ok && left != snapshots.Keys ==> !backend.crashed
        invariant ok ==>
                    forall t | t in snapshots && t !in left ::
                      JournalKey(id, t) !in backend.db.journal && snapshots[t] !in backend.db.snapshots
        invariant !backend.crashed ==> forall j | j in backend.db.journal :: j in start.journal
        invariant backend.step >= old(backend.step)
        invariant old(backend.Steady() && snapshots.Keys <= backend.db.tables.Keys) ==>
                    ok && backend.Steady() && snapshots.Keys <= backend.db.tables.Keys
      {
        var t :| t in left;
        var restored;
        restored, final := RestoreNext(t, start, settled, final, leaked, left, up, ok);
        ok := ok && restored;
        left := left - {t};
      }
      if good { EndRestoring(start, settled, final, leaked, up, ok); }
    }

    /** One round of that loop. */
    method RestoreNext(t: Name, ghost start: Db, ghost settled: Tables, ghost final: Tables, ghost leaked: set<Name>,
                       ghost left: set<Name>, ghost up: bool, ghost ok: bool)
      returns (restored: bool, ghost after: Tables)
      requires t in left && left <= snapshots.Keys
      modifies backend`db, backend`crashed, backend`step
      ensures old(backend.crashed) ==> !restored && backend.crashed && backend.db == old(backend.db) && after == final
      ensures restored ==>
                !backend.crashed && JournalKey(id, t) !in backend.db.journal && snapshots[t] !in backend.db.snapshots
      ensures !backend.crashed ==> OnlyForgets(old(backend.db), backend.db, id, t, snapshots[t])
      ensures old(Restoring(backend.db, backend.crashed, start, settled, final, leaked, left, up, ok)) ==>
                Restoring(backend.db, backend.crashed, start, settled, after, leaked, left - {t}, up, ok && restored)
      ensures backend.step >= old(backend.step)
      ensures old(backend.Steady() && t in backend.db.tables) ==>
                restored && backend.Steady() && backend.db.tables.Keys == old(backend.db.tables).Keys
    {
      hide Recoverable, Outcome, Journaled, MayRestore, Restoring, Waiting, OnlyTable;
      ghost var before, down := backend.db, backend.crashed;
      ghost var good := Restoring(before, down, start, settled, final, leaked, left, up, ok);
      if good && !down { MayRestoreNext(before, start, settled, final, leaked, left, up, ok, t); }
      restored := backend.RestoreSnapshot(id, t, snapshots[t], final);
      after := final;
      if good {
        if down {
          KeptDown(before, start, settled, final, leaked, left, up, ok, t);
        } else {
          if t in leaked { after := final[t := backend.db.tables[t]]; }
          NextRestored(before, backend.db, backend.crashed, start, settled, final, after, leaked, left, up, ok,
                       restored, t);
        }
      }
      if !backend.crashed { OnlyTableForgets(before, backend.db, id, t, snapshots[t]); }
    }

    lemma MayRestoreNext(now: Db, start: Db, settled: Tables, final: Tables, leaked: set<Name>, left: set<Name>,
                         up: bool, ok: bool, t: Name)
      requires t in left && Restoring(now, false, start, settled, final, leaked, left, up, ok)
      ensures Recoverable(now, final) && t in final && t in snapshots
      ensures if t in leaked then Stray(now, t, snapshots[t]) else MayRestore(now, id, t, snapshots[t])
    {
      hide Recoverable, MayRestore, Stray;
    }

    /** The next table has been restored, or rewritten from its snapshot. */
    lemma NextRestored(before: Db, now: Db, down: bool, start: Db, settled: Tables, final: Tables, after: Tables,
                       leaked: set<Name>, left: set<Name>, up: bool, ok: bool, restored: bool, t: Name)
      requires t in left && Restoring(before, false, start, settled, final, leaked, left, up, ok)
      requires Recoverable(now, after) && (!down ==> OnlyTable(before, now, id, t, snapshots[t]))
      requires if t in leaked then
                 && t in before.tables && snapshots[t] in before.snapshots && t in now.tables &&
                   after == final[t := now.tables[t]]
                 && Outcome(before, id, t, snapshots[t], after[t], restored)
               else after == final
      ensures Restoring(now, down, start, settled, after, leaked, left - {t}, up, ok && restored)
    {
      hide Recoverable, Outcome, MayRestore, OnlyTable, Stray;
      if !down { LeftStay(start, before, now, leaked, left, t); }
      EarlierKept(start, final, after, leaked - left, ok, ok && restored);
      if t in leaked {
        OutcomeSame(start, before, id, t, snapshots[t], after[t], restored);
        OutcomeWeaker(start, id, t, snapshots[t], after[t], restored, ok && restored);
        assert leaked - (left - {t}) == leaked - left + {t};
      } else {
        assert leaked - (left - {t}) == leaked - left;
      }
    }

    /** A leaked table that has not been rewritten yet. */
    ghost predicate Waiting(start: Db, now: Db, t: Name)
      reads this
    {
      && t in snapshots && Stray(now, t, snapshots[t])
      && t in start.tables && t in now.tables && now.tables[t] == start.tables[t]
      && snapshots[t] in start.snapshots && now.snapshots[snapshots[t]] == start.snapshots[snapshots[t]]
      && (forall k :: Recorded(now, id, t, k) == Recorded(start, id, t, k))
    }

    /** What has become of leaked tables, and what recovery will make of them. */
    ghost predicate Rewritten(start: Db, tables: set<Name>, final: Tables, done: bool)
      reads this
    {
      forall t | t in tables ::
        && t in snapshots && t in final && t in start.tables && snapshots[t] in start.snapshots
        && Outcome(start, id, t, snapshots[t], final[t], done)
    }

    ghost predicate OwnNames()
      reads this
    {
      forall t, u | t in snapshots && u in snapshots && t != u :: snapshots[t] != snapshots[u]
    }

    /** The state `now`, on a connection that is `down` or not, while the tables in `left` are still to come. */
    ghost predicate Restoring(now: Db, down: bool, start: Db, settled: Tables, final: Tables, leaked: set<Name>,
                              left: set<Name>, up: bool, ok: bool)
      reads this
    {
      && Recoverable(now, final) && final.Keys == settled.Keys && left <= snapshots.Keys <= settled.Keys && OwnNames()
      && (forall t | t in settled && (t !in leaked || t in left) :: final[t] == settled[t])
      && (up ==>
        forall t | t in leaked ::
          t in snapshots && t in start.tables && snapshots[t] in start.snapshots && settled[t] == start.tables[t])
      && (!down ==>
        up && forall t | t in left ::
          if t in leaked then Waiting(start, now, t) else MayRestore(now, id, t, snapshots[t]))
      && (up ==> Rewritten(start, leaked - left, final, ok))
    }

    ghost predicate MayRestoreAll(settled: Tables, leaked: set<Name>)
      reads this, backend
    {
      && Recoverable(backend.db, settled) && snapshots.Keys <= settled.Keys && leaked <= snapshots.Keys && OwnNames()
      && (backend.crashed || forall t | t in snapshots ::
            if t in leaked then Stray(backend.db, t, snapshots[t]) else MayRestore(backend.db, id, t, snapshots[t]))
    }

    lemma StartRestoring(settled: Tables, leaked: set<Name>, up: bool)
      requires MayRestoreAll(settled, leaked) && up == !backend.crashed
      ensures Restoring(backend.db, backend.crashed, backend.db, settled, settled, leaked, snapshots.Keys, up, true)
    {
      hide Outcome;
      if up {
        forall t | t in leaked
          ensures t in backend.db.tables && settled[t] == backend.db.tables[t] && Waiting(backend.db, backend.db, t)
        {
          StrayStart(backend.db, settled, id, t, snapshots[t]);
          assert settled[t := backend.db.tables[t]][t] == settled[t];
        }
      }
      assert leaked - snapshots.Keys == {};
    }

    lemma EndRestoring(start: Db, settled: Tables, final: Tables, leaked: set<Name>, up: bool, ok: bool)
      requires Restoring(backend.db, backend.crashed, start, settled, final, leaked, {}, up, ok)
      ensures Recoverable(backend.db, final) && final.Keys == settled.Keys &&
              forall t | t in settled && t !in leaked :: final[t] == settled[t]
      ensures up ==> Rewritten(start, leaked, final, ok)
    {
      hide Outcome, Recoverable;
      assert leaked - {} == leaked;
    }

    /** After a crash nothing changes; a table not reached is as it was. */
    lemma KeptDown(now: Db, start: Db, settled: Tables, final: Tables, leaked: set<Name>, left: set<Name>, up: bool,
                   ok: bool, t: Name)
      requires t in left && Restoring(now, true, start, settled, final, leaked, left, up, ok)
      ensures Restoring(now, true, start, settled, final, leaked, left - {t}, up, false)
    {
      hide Outcome, Recoverable;
      if up {
        forall u | u in leaked - (left - {t})
          ensures u in final && Outcome(start, id, u, snapshots[u], final[u], false)
        {
          if u == t {
            OutcomeBefore(start, id, u, snapshots[u]);
          } else {
            assert u in leaked - left;
            OutcomeWeaker(start, id, u, snapshots[u], final[u], ok, false);
          }
        }
      }
    }

    /** The tables still to come are not touched by restoring `t`. */
    lemma LeftStay(start: Db, before: Db, now: Db, leaked: set<Name>, left: set<Name>, t: Name)
      requires t in left && left <= snapshots.Keys && OwnNames() && OnlyTable(before, now, id, t, snapshots[t])
      requires forall u | u in left ::
                 if u in leaked then Waiting(start, before, u) else MayRestore(before, id, u, snapshots[u])
      ensures forall u | u in left - {t} ::
                if u in leaked then Waiting(start, now, u) else MayRestore(now, id, u, snapshots[u])
    {
      forall u | u in left - {t}
        ensures if u in leaked then Waiting(start, now, u) else MayRestore(now, id, u, snapshots[u])
      {
        if u in leaked {
          StrayStays(before, now, id, t, snapshots[t], u, snapshots[u]);
        } else {
          OthersMayRestore(before, now, id, t, snapshots[t], u, snapshots[u]);
        }
      }
    }

    lemma EarlierKept(start: Db, final: Tables, after: Tables, earlier: set<Name>, ok: bool, done: bool)
      requires Rewritten(start, earlier, final, ok) && (done ==> ok)
      requires forall t | t in earlier :: t in after && after[t] == final[t]
      ensures Rewritten(start, earlier, after, done)
    {
      hide Outcome;
      forall t | t in earlier ensures Outcome(start, id, t, snapshots[t], after[t], done) {
        OutcomeWeaker(start, id, t, snapshots[t], final[t], ok, done);
      }
    }

    /** An open transaction may restore its tables. */
    lemma MayRestoreOwn()
      requires Valid() && !closed
      ensures MayRestoreAll(base, {}) || backend.crashed
      ensures backend.crashed ==> Recoverable(backend.db, base)
    {
      hide Recoverable, InStep;
      if !backend.crashed {
        InStepRestores(backend.db, base, id, snapshots);
      }
    }

    lemma SameTables(a: Tables, b: Tables)
      requires a.Keys == b.Keys && forall t | t in b :: a[t] == b[t]
      ensures a == b
    {
    }

    /** Brings every table back to what it was when the transaction began. */
    method Rollback() returns (result: Result)
      requires Valid()
      modifies this`closed, backend
      ensures closed && Valid()
      ensures result.TxDone? <==> old(closed)
      ensures old(closed) ==>
                backend.db == old(backend.db) && backend.crashed == old(backend.crashed) &&
                  backend.locked == old(backend.locked)
      ensures !old(closed) ==> !backend.locked && Recoverable(backend.db, base)
      ensures result.Done? && !backend.crashed ==> backend.db.tables == base && backend.db.journal == map[]
      ensures result.Done? ==> forall t | t in snapshots :: snapshots[t] !in backend.db.snapshots
    {
      if closed {
        return TxDone;
      }
      hide Recoverable, InStep;
      MayRestoreOwn();
      ghost var final;
      var ok;
      ok, final := RestoreSnapshots(base, {});
      SameTables(final, base);
      if ok && !backend.crashed {
        assert backend.db.journal == map[];
        NothingJournaled(backend.db, base);
      }
      Finish();
      return if ok then Done else Failed;
    }

    /**
     Commits table by table. The report says what recovery would make of the tables afterwards: a
     table is new if its journal row was deleted, old otherwise, and only a leaked table, which is
     rewritten from its snapshot when a later journal row is refused, may be anything else. `first`
     is the table the map gives first; without it any may be.
     */
    method Commit(first: Option<Name>) returns (result: Result, ghost report: Report)
      requires Valid()
      modifies this`closed, backend
      ensures closed && Valid()
      ensures result.TxDone? <==> old(closed)
      ensures old(closed) ==>
                backend.db == old(backend.db) && backend.crashed == old(backend.crashed) &&
                  backend.locked == old(backend.locked)
      ensures backend.plan == old(backend.plan)
      ensures !old(closed) ==> !backend.locked
      ensures !old(closed) ==> Recoverable(backend.db, report.settled)
      ensures !old(closed) ==> Reports(report, base, old(backend.db.tables))
      ensures !old(closed) && report.leaked == {} ==> OldOrNew(report.settled, base, old(backend.db.tables))
      ensures !old(closed) && !report.refused && !old(backend.crashed) ==>
                forall t | t in base ::
                  report.settled[t] == if Journaled(backend.db, t) then base[t] else old(backend.db.tables)[t]
      ensures report.leaked != {} ==> result.Failed? && report.refused && |snapshots| >= 2
      ensures !old(closed) && report.restored ==> TornMayTear(report, base, old(backend.db.tables))
      ensures !old(closed) && report.restored ==> LeakedTearIff(report, base, old(backend.db.tables))
      ensures report.names == snapshots && report.tx == id
      ensures result.Done? && !backend.crashed ==>
                backend.db.tables == old(backend.db.tables) && backend.db.journal == map[] && !report.refused
      ensures !old(closed) && !old(backend.crashed) && first.Some? &&
              old(MayScript(first.value, backend.plan, backend.step)) ==>
                && report.refused && report.restored && !backend.crashed && report.leaked == {first.value}
                && KeysByPlan(old(backend.db), report.at, first.value, old(backend.plan).value, old(backend.step) + 1)
    {
      hide Recoverable, InStep, Journaled, AwaitCommit, Settles, OldOrNew, Rewritten, Outcome, Leaks, Reports,
           LeakedTearIff, Leaked, FirstLeaks, KeysByPlan, TornMayTear, MayScript, Scripted, KeptBy, StaysWhole;
      report := Report(base, {}, {}, false, false, backend.db, snapshots, id);
      if closed {
        result := TxDone;
        return;
      }
      ghost var new_, up := backend.db.tables, !backend.crashed;
      ghost var left, settled;
      var ok;
      if up { UntouchedSame(backend.db, id, snapshots, base); }
      RecoverableDomain(backend.db, base);
      ok, left, settled := CommitTables(first);
      ghost var at, committed := backend.db, if up then Committed(backend.db) else {};
      if up { SettledByJournal(at, id, settled, base, new_); }
      report := Report(settled, committed, {}, false, false, at, snapshots, id);
      PlainReport(report, base, new_);
      if up { SettlesAll(at, id, settled, base, new_); }
      if ok {
        Finish();
        result := Done;
        return;
      }
      report := RestoreRefused(left, settled, committed, new_);
      if first.Some? { LeakIsOne(old(backend.db), at, left, first.value, old(backend.plan), old(backend.step) + 1); }
      Finish();
      result := Failed;
    }

    /** What a commit does when a journal row could not be deleted, and its report. */
    method RestoreRefused(ghost left: set<Name>, ghost settled: Tables, ghost committed: set<Name>, ghost new_: Tables)
      returns (ghost report: Report)
      requires Recoverable(backend.db, settled) && settled.Keys == base.Keys == new_.Keys && snapshots.Keys <= base.Keys
      requires committed <= base.Keys &&
               forall t | t in base :: settled[t] == if t in committed then new_[t] else base[t]
      requires left <= snapshots.Keys && left != {}
      requires !backend.crashed ==>
                 AwaitCommit(backend.db, id, snapshots, left, base) && backend.db.tables == new_ &&
                   committed == Committed(backend.db)
      modifies backend`db, backend`crashed, backend`step
      ensures Recoverable(backend.db, report.settled)
      ensures Reports(report, base, new_) && (report.leaked == {} ==> OldOrNew(report.settled, base, new_))
      ensures report.restored ==> LeakedTearIff(report, base, new_) && TornMayTear(report, base, new_)
      ensures report.refused == !old(backend.crashed) && (report.leaked != {} ==> report.refused && |snapshots| >= 2)
      ensures report.leaked == if old(backend.crashed) then {} else Leaked(old(backend.db), snapshots, left)
      ensures report.at == old(backend.db) && report.names == snapshots && report.tx == id &&
              report.committed == committed
      ensures old(backend.crashed) ==> backend.crashed && backend.db == old(backend.db) && report.settled == settled
      ensures old(backend.Steady()) ==> report.restored && backend.Steady()
    {
      hide Recoverable, Journaled, AwaitCommit, OldOrNew, Rewritten, Outcome, Leaks, Reports, MayRestoreAll,
           LeakedTearIff, TornMayTear, Leaked;
      ghost var at, refused, leaked, final := backend.db, !backend.crashed, {}, settled;
      RecoverableDomain(backend.db, settled);
      if refused {
        leaked := Leaked(at, snapshots, left);
        LeaksBeside(at, left);
        CommitRestorable(left, settled);
      }
      var restored;
      restored, final := RestoreSnapshots(settled, leaked);
      report := Report(final, committed, leaked, refused, restored, at, snapshots, id);
      if refused {
        LeakReport(report, settled, left, new_);
      } else {
        PlainReport(report, base, new_);
      }
      TearsExactly(report, base, new_);
      TornMay(report, base, new_);
    }

    /** The tables whose journal row is gone. */
    ghost function Committed(db: Db): set<Name>
      reads this
    {
      set t | t in snapshots && JournalKey(id, t) !in db.journal
    }

    /** After a refused journal row all tables may be restored, the leaked ones by rewriting. */
    lemma CommitRestorable(left: set<Name>, settled: Tables)
      requires AwaitCommit(backend.db, id, snapshots, left, base) && Recoverable(backend.db, settled)
      requires snapshots.Keys <= base.Keys == settled.Keys
      ensures MayRestoreAll(settled, Leaked(backend.db, snapshots, left))
    {
      hide AwaitCommit, Leaks, Recoverable, Stray, MayRestore;
      AwaitRestores(backend.db, id, snapshots, left, base);
    }

    /** The report of a commit that was refused and has restored its tables. */
    lemma LeakReport(r: Report, settled: Tables, left: set<Name>, new_: Tables)
      requires AwaitCommit(r.at, id, snapshots, left, base) && r.at.tables == new_ && snapshots.Keys <= base.Keys
      requires r.leaked == Leaked(r.at, snapshots, left) && r.committed == Committed(r.at) && r.names == snapshots &&
               r.tx == id
      requires r.settled.Keys == settled.Keys == base.Keys == new_.Keys
      requires forall t | t in base && t !in r.leaked :: r.settled[t] == settled[t]
      requires forall t | t in base :: settled[t] == if t in Committed(r.at) then new_[t] else base[t]
      requires Rewritten(r.at, r.leaked, r.settled, r.restored)
      ensures Reports(r, base, new_)
      ensures r.leaked == {} ==> OldOrNew(r.settled, base, new_)
    {
      hide AwaitCommit, Leaks, Outcome;
      AwaitRestores(r.at, id, snapshots, left, base);
      LeakedCommitted(r.at, id, snapshots, left, base);
    }

    /** Commits one table after another until all are committed or a journal row cannot be deleted. */
    method CommitTables(first: Option<Name>) returns (ok: bool, ghost left: set<Name>, ghost settled: Tables)
      requires Valid() && !closed
      modifies backend`db, backend`crashed, backend`step
      ensures Recoverable(backend.db, settled) && settled.Keys == base.Keys
      ensures old(backend.crashed) ==>
                backend.crashed && backend.db == old(backend.db) && settled == base &&
                  OldOrNew(settled, base, old(backend.db.tables))
      ensures !old(backend.crashed) ==> Settles(backend.db, id, settled, base, old(backend.db.tables))
      ensures !backend.crashed ==>
                backend.db.tables == old(backend.db.tables) && AwaitCommit(backend.db, id, snapshots, left, base)
      ensures left <= snapshots.Keys
      ensures ok && !backend.crashed ==> backend.db.journal == map[]
      ensures !ok ==> left != {}
      ensures !old(backend.crashed) && first.Some? && old(MayScript(first.value, backend.plan, backend.step)) ==>
                !ok && backend.Steady() &&
                FirstLeaks(old(backend.db), backend.db, left, first.value, old(backend.plan), old(backend.step) + 1)
    {
      hide Recoverable, InStep, Journaled, AwaitCommit, Settles, OldOrNew, Planned, OnPlan, FirstLeaks, MayScript,
           Valid, Scripted, Committing;
      ghost var new_, begin, start := backend.db.tables, backend.db, backend.step;
      ghost var script := !backend.crashed && first.Some? && MayScript(first.value, backend.plan, start);
      CommitStarts();
      settled := base;
      var open_ := snapshots.Keys;
      if script { PlanStarts(backend.db, backend.crashed, backend.plan, first.value, start); }
      while open_ != {}
        decreases |open_|
        invariant open_ <= snapshots.Keys && Recoverable(backend.db, settled)
        invariant old(backend.crashed) ==> backend.crashed && backend.db == old(backend.db) && settled == base
        invariant !backend.crashed ==> backend.db.tables == new_ && AwaitCommit(backend.db, id, snapshots, open_, base)
        invariant !old(backend.crashed) ==> Settles(backend.db, id, settled, base, new_)
        invariant settled.Keys == base.Keys
        invariant script ==>
                    OnPlan(begin, backend.db, backend.crashed, backend.plan, open_, first.value, start, backend.step)
      {
        var t :| t in open_ && (first.Some? && first.value in open_ ==> t == first.value);
        ghost var before, down, at := backend.db, backend.crashed, backend.step;
        MayCommitNext(open_, settled, new_);
        settled, ok := CommitNext(t, open_, settled, new_);
        if script {
          ByPlan(begin, before, backend.db, down, backend.crashed, backend.plan, open_, t, first.value, start, at,
                 backend.step, ok);
        }
        if !ok {
          if old(backend.crashed) { OldIsOld(base, new_); }
          return false, open_, settled;
        }
        open_ := open_ - {t};
      }
      if !backend.crashed {
        AwaitNothing(backend.db, id, snapshots, base);
      }
      if script {
        PlanOpens(begin, backend.db, backend.crashed, backend.plan, open_, first.value, start, backend.step);
      }
      if old(backend.crashed) { OldIsOld(base, new_); }
      return true, {}, settled;
    }

    lemma CommitStarts()
      requires Valid() && !closed
      ensures Recoverable(backend.db, base) && snapshots.Keys <= base.Keys == backend.db.tables.Keys
      ensures !backend.crashed ==> Settles(backend.db, id, base, base, backend.db.tables)
      ensures !backend.crashed ==> AwaitCommit(backend.db, id, snapshots, snapshots.Keys, base)
    {
      hide Recoverable, InStep, Settles, AwaitCommit;
      RecoverableDomain(backend.db, base);
      if !backend.crashed { StartsOld(backend.db, id, snapshots, base); }
    }

    lemma MayCommitNext(left: set<Name>, settled: Tables, new_: Tables)
      requires !backend.crashed ==> backend.db.tables == new_ && AwaitCommit(backend.db, id, snapshots, left, base)
      requires !backend.crashed ==> Settles(backend.db, id, settled, base, new_)
      ensures Committing(left, settled, new_)
    {
      hide AwaitCommit, Settles;
    }

    /** Of the four statements from `start` on the first succeeds and the last two fail; no later one does. */
    ghost predicate Scripted(plan: Option<map<nat, Fault>>, start: nat) {
      && plan.Some? && start !in plan.value && start + 2 in plan.value && start + 3 in plan.value
      && forall n | n in plan.value :: n < start + 4
    }

    ghost predicate MayScript(t: Name, plan: Option<map<nat, Fault>>, start: nat)
      reads this
    {
      |snapshots| >= 2 && t in snapshots && Scripted(plan, start)
    }

    /** The key records of `t` are those that were there and have outlived statement `n`. */
    ghost predicate KeysByPlan(before: Db, db: Db, t: Name, faults: map<nat, Fault>, n: nat) {
      forall k :: Recorded(db, id, t, k) <==> Recorded(before, id, t, k) && KeptBy(faults, n, KeyRecord(id, t, k))
    }

    /** All tables but `t` are left, and `t` still has its snapshot. */
    ghost predicate FirstLeaks(begin: Db, db: Db, left: set<Name>, t: Name, plan: Option<map<nat, Fault>>, n: nat)
      reads this
    {
      && t in snapshots && left == snapshots.Keys - {t} && snapshots[t] in db.snapshots
      && plan.Some? && KeysByPlan(begin, db, t, plan.value, n)
    }

    lemma LeakIsOne(begin: Db, db: Db, left: set<Name>, t: Name, plan: Option<map<nat, Fault>>, n: nat)
      ensures FirstLeaks(begin, db, left, t, plan, n) ==>
                Leaked(db, snapshots, left) == {t} && plan.Some? && KeysByPlan(begin, db, t, plan.value, n)
    {
      if FirstLeaks(begin, db, left, t, plan, n) {
        hide KeysByPlan;
        assert Leaked(db, snapshots, left) == {t};
      }
    }

    /** Beside a leaked table there is the one whose journal row was refused. */
    lemma LeaksBeside(db: Db, left: set<Name>)
      requires left <= snapshots.Keys && left != {}
      ensures Leaked(db, snapshots, left) != {} ==> |snapshots| >= 2
    {
      if t :| t in Leaked(db, snapshots, left) {
        var u :| u in left;
        SubsetSize({t, u}, snapshots.Keys);
      }
    }

    /** Where a script is: at the beginning, or after the first table, which leaks. */
    ghost predicate OnPlan(begin: Db, db: Db, down: bool, plan: Option<map<nat, Fault>>, open_: set<Name>, t: Name,
                           start: nat, step: nat)
      reads this
    {
      && !down && MayScript(t, plan, start)
      && (|| (open_ == snapshots.Keys && step == start && db == begin)
          || (open_ != {} && step == start + 3 && FirstLeaks(begin, db, open_, t, plan, start + 1)))
    }

    lemma PlanStarts(db: Db, down: bool, plan: Option<map<nat, Fault>>, t: Name, start: nat)
      requires !down && MayScript(t, plan, start)
      ensures OnPlan(db, db, down, plan, snapshots.Keys, t, start, start)
    {
    }

    lemma PlanOpens(begin: Db, db: Db, down: bool, plan: Option<map<nat, Fault>>, open_: set<Name>, t: Name,
                    start: nat, step: nat)
      requires OnPlan(begin, db, down, plan, open_, t, start, step)
      ensures open_ != {}
    {
    }

    /** The first table leaks; the journal row of the second is refused. */
    lemma ByPlan(begin: Db, before: Db, db: Db, downBefore: bool, down: bool, plan: Option<map<nat, Fault>>,
                 open_: set<Name>,
                 t: Name, first: Name, start: nat, at: nat, now: nat, ok: bool)
      requires OnPlan(begin, before, downBefore, plan, open_, first, start, at)
      requires t in open_ && open_ <= snapshots.Keys && (first in open_ ==> t == first)
      requires plan.Some? && !downBefore ==> Planned(before, at, plan, now, ok, db, down, t)
      requires !ok && !down ==> db == before
      ensures ok ==> OnPlan(begin, db, down, plan, open_ - {t}, first, start, now)
      ensures !ok ==> !down && now == start + 4 && FirstLeaks(begin, db, open_, first, plan, start + 1)
      ensures !ok ==> plan.Some? && forall n | n in plan.value :: n < now
    {
      hide KeysByPlan;
      if at == start {
        assert |snapshots.Keys - {t}| == |snapshots| - 1;
        assert FirstLeaks(begin, db, snapshots.Keys - {t}, t, plan, start + 1);
      }
    }

    ghost predicate Committing(left: set<Name>, settled: Tables, new_: Tables)
      reads this, backend
    {
      !backend.crashed ==>
        backend.db.tables == new_ && AwaitCommit(backend.db, id, snapshots, left, base) &&
          Settles(backend.db, id, settled, base, new_)
    }

    /** One round of the commit loop. */
    method CommitNext(t: Name, ghost left: set<Name>, ghost settled: Tables, ghost new_: Tables)
      returns (ghost after: Tables, ok: bool)
      requires t in left && left <= snapshots.Keys && t in base && settled.Keys == base.Keys &&
               Recoverable(backend.db, settled)
      requires Committing(left, settled, new_)
      modifies backend`db, backend`crashed, backend`step
      ensures Recoverable(backend.db, after) && after.Keys == base.Keys
      ensures old(backend.crashed) ==> !ok && backend.crashed && backend.db == old(backend.db) && after == settled
      ensures old(Settles(backend.db, id, settled, base, new_)) ==> Settles(backend.db, id, after, base, new_)
      ensures !backend.crashed ==>
                backend.db.tables == new_ &&
                AwaitCommit(backend.db, id, snapshots, if ok then left - {t} else left, base)
      ensures !ok && !backend.crashed ==> backend.db == old(backend.db)
      ensures old(!backend.crashed && backend.plan.Some?) ==>
                Planned(old(backend.db), old(backend.step), backend.plan, backend.step, ok, backend.db,
                        backend.crashed, t)
    {
      hide Recoverable, Journaled, AwaitCommit, Settles, Leaks;
      ghost var before := backend.db;
      if !backend.crashed {
        AwaitsEach(before, id, snapshots, left, base, t);
        SettledOld(before, id, settled, base, new_, t);
      }
      ok, after := CommitTable(t, settled);
      if Settles(before, id, settled, base, new_) {
        SettledKeys(before, id, settled, base, new_);
        if !old(backend.crashed) {
          SettleStep(before, backend.db, id, settled, base, new_, t);
        }
      }
      if ok && !backend.crashed {
        AwaitStep(before, backend.db, id, snapshots, left, base, t);
      }
    }

    /** How a plan decides the three statements that commit a table. */
    ghost predicate Planned(before: Db, start: nat, plan: Option<map<nat, Fault>>, now: nat, ok: bool, db: Db,
                            crashed: bool, t: Name)
      reads this
    {
      && plan.Some? && !crashed && (ok <==> start !in plan.value) && now == (if ok then start + 3 else start + 1)
      && (ok ==> KeysByPlan(before, db, t, plan.value, start + 1))
      && (ok && start + 2 in plan.value ==> t in snapshots && snapshots[t] in db.snapshots)
    }

    /** What a plan leaves of the key records. */
    lemma KeysDeleted(begin: Db, before: Db, after: Db, t: Name, faults: map<nat, Fault>, n: nat, ok: bool)
      requires forall k :: Recorded(before, id, t, k) == Recorded(begin, id, t, k)
      requires ok <==> n !in faults
      requires ok ==> after == DeleteKeys(before, id, t)
      requires forall r ::
                 r in after.keys <==> r in DeleteKeys(before, id, t).keys || (r in before.keys && KeptBy(faults, n, r))
      ensures KeysByPlan(begin, after, t, faults, n)
    {
    }

    /** Deletes the journal row of one table, which commits it, and then its undo records. */
    method CommitTable(t: Name, ghost settled: Tables) returns (ok: bool, ghost after: Tables)
      requires t in snapshots && t in settled && Recoverable(backend.db, settled)
      requires !backend.crashed ==>
                 JournalKey(id, t) in backend.db.journal && backend.db.journal[JournalKey(id, t)] == snapshots[t]
      modifies backend`db, backend`crashed, backend`step
      ensures Recoverable(backend.db, after)
      ensures old(backend.crashed) ==> !ok && backend.crashed && backend.db == old(backend.db)
      ensures t in old(backend.db.tables) &&
              after == Settled(old(backend.db), backend.db, id, settled, old(backend.db.tables), t)
      ensures ok ==> JournalKey(id, t) !in backend.db.journal
      ensures backend.db.journal == old(backend.db.journal) ||
              backend.db.journal == old(backend.db.journal) - {JournalKey(id, t)}
      ensures !backend.crashed ==>
                backend.db.tables == old(backend.db.tables) &&
                  OnlyTable(old(backend.db), backend.db, id, t, snapshots[t])
      ensures !ok && !backend.crashed ==> backend.db == old(backend.db)
      ensures ok && !backend.crashed ==>
                snapshots[t] !in backend.db.snapshots || Leaks(backend.db, id, t, snapshots[t], settled[t])
      ensures old(!backend.crashed && backend.plan.Some?) ==>
                Planned(old(backend.db), old(backend.step), backend.plan, backend.step, ok, backend.db,
                        backend.crashed, t)
    {
      hide Recoverable, Journaled, Safe, Torn, Leaks, OnlyTable, KeptBy, Recorded;
      ghost var before, j := backend.db, JournalKey(id, t);
      RecoverableDomain(before, settled);
      JournalOnly(before, id, t, snapshots[t]);
      after := settled;
      ok := backend.Exec(DeleteJournal(backend.db, id, t));
      TornAtomic(before, backend.db, DeleteJournal(before, id, t));
      if j in before.journal && j !in backend.db.journal {
        CommitsTable(before, settled, j);
        after := settled[t := before.tables[t]];
      }
      if !ok { return; }
      ghost var uncovered := backend.db;
      if !backend.crashed { CommittedLeaks(before, settled, id, t, snapshots[t]); }
      NotJournaledNow(before, settled, id, t);
      RecoverableDomain(backend.db, after);
      DeleteKeysSafe(backend.db, after, j);
      var cleaned := backend.Alter(DeleteKeys(backend.db, id, t), after);
      StillLeaks(uncovered, backend.db, id, t, snapshots[t], settled[t]);
      FewerKeys(uncovered, backend.db, id, t, snapshots[t]);
      if !backend.crashed {
        SnapshotSafe(backend.db, DropSnapshot(backend.db, snapshots[t]), after, snapshots[t]);
      }
      ghost var thinned := backend.db;
      var gone := backend.Step(DropSnapshot(backend.db, snapshots[t]), after);
      SnapshotOnly(thinned, backend.db, id, t, snapshots[t]);
      if !backend.crashed {
        if backend.plan.Some? {
          KeysDeleted(before, uncovered, thinned, t, backend.plan.value, old(backend.step) + 1, cleaned);
        }
        OnlyTableTwice(before, uncovered, thinned, id, t, snapshots[t]);
        OnlyTableTwice(before, thinned, backend.db, id, t, snapshots[t]);
      }
    }
  }

  /**
   What a commit leaves. `settled`: the tables recovery ends with. `committed`: the tables whose
   journal row it deleted. `leaked`: those of them whose snapshot was still there, in the state
   `at`, when a later journal row was refused and every table was restored. `restored`: that
   restore has completed.
   */
  datatype Report = Report(
    settled: Tables, committed: set<Name>, leaked: set<Name>, refused: bool, restored: bool,
    at: Db, names: map<Name, SnapshotName>, tx: Name)

  /** Nothing has been rewritten: each table is what its journal row says. */
  lemma PlainReport(r: Report, base: Tables, new_: Tables)
    requires r.leaked == {} && r.committed <= base.Keys && r.settled.Keys == base.Keys == new_.Keys
    ensures (forall t | t in base :: r.settled[t] == if t in r.committed then new_[t] else base[t]) ==>
              Reports(r, base, new_) && OldOrNew(r.settled, base, new_)
  {
  }

  ghost predicate Reports(r: Report, base: Tables, new_: Tables) {
    && r.settled.Keys == base.Keys == new_.Keys && r.leaked <= r.committed <= base.Keys
    && (forall t | t in base && t !in r.leaked :: r.settled[t] == if t in r.committed then new_[t] else base[t])
    && (forall t | t in r.leaked ::
          && t in r.names && t in r.at.tables && r.at.tables[t] == new_[t]
          && Leaks(r.at, r.tx, t, r.names[t], base[t])
          && Outcome(r.at, r.tx, t, r.names[t], r.settled[t], r.restored))
  }

  /**
   After a completed restore a leaked table is old or new exactly if every key it gained is still
   recorded, or none is and no base row has changed.
   */
  ghost predicate LeakedTearIff(r: Report, base: Tables, new_: Tables) {
    forall t | t in r.leaked ::
      && t in base && t in new_ && t in r.settled && t in r.at.tables && r.at.tables[t] == new_[t]
      && (r.settled[t] == base[t] || r.settled[t] == new_[t] <==> StaysWhole(r.at, r.tx, t, base[t]))
  }

  lemma TearsExactly(r: Report, base: Tables, new_: Tables)
    requires Reports(r, base, new_)
    ensures r.restored ==> LeakedTearIff(r, base, new_)
  {
    hide StaysWhole, RestoredRows, CutRows, Part;
    if r.restored {
      forall t | t in r.leaked {
        RestoredTearsIff(r.at, r.tx, t, r.names[t], base[t]);
      }
    }
  }

  /** The table has gained a key, and has lost or changed a row or gained another key. */
  ghost predicate MayTear(base: Table, new_: Table) {
    exists spare :: TearsWith(base, new_, spare)
  }

  /** The same with a key whose record is to stay behind, if there is one. */
  ghost predicate TearsWith(base: Table, new_: Table, spare: Option<RowKey>) {
    match spare
    case None => (exists k :: k in new_ && k !in base) && exists k :: k in base && !SameAt(new_, base, k)
    case Some(k) => k in new_ && k !in base && exists j :: j != k && j in new_ && j !in base
  }

  /** After a completed restore only such a table can be torn. */
  ghost predicate TornMayTear(r: Report, base: Tables, new_: Tables) {
    forall t | t in r.leaked ::
      && t in base && t in new_ && t in r.settled
      && (r.settled[t] == base[t] || r.settled[t] == new_[t] || MayTear(base[t], new_[t]))
  }

  lemma TornMay(r: Report, base: Tables, new_: Tables)
    requires r.restored ==> LeakedTearIff(r, base, new_)
    ensures r.restored ==> TornMayTear(r, base, new_)
  {
    if r.restored {
      forall t | t in r.leaked
        ensures t in base && t in new_ && t in r.settled
        ensures r.settled[t] == base[t] || r.settled[t] == new_[t] || MayTear(base[t], new_[t])
      {
        if !StaysWhole(r.at, r.tx, t, base[t]) { NotWhole(r.at, r.tx, t, base[t]); }
      }
    }
  }

  lemma NotWhole(db: Db, tx: Name, table: Name, base: Table)
    requires table in db.tables && !StaysWhole(db, tx, table, base)
    ensures MayTear(base, db.tables[table])
  {
    var new_ := db.tables[table];
    var j :| j in new_ && j !in base && !Recorded(db, tx, table, j);
    if k :| k in new_ && k !in base && Recorded(db, tx, table, k) {
      assert TearsWith(base, new_, Some(k));
    } else {
      var b :| b in base && !SameAt(new_, base, b);
      assert TearsWith(base, new_, None);
    }
  }

  /** A new process opens the store: start-up recovery, retried after every crash of its own. */
  method Restart(backend: Backend, attempts: nat, ghost base: Tables) returns (ok: bool)
    modifies backend
    ensures ok ==>
              backend.db.journal == map[] && backend.db.snapshots == map[] && backend.db.keys == {} &&
                !backend.crashed && !backend.locked
    ensures old(Recoverable(backend.db, base)) ==> Recoverable(backend.db, base) && (ok ==> backend.db.tables == base)
  {
    hide Recoverable;
    ok := false;
    for i := 0 to attempts
      invariant old(Recoverable(backend.db, base)) ==> Recoverable(backend.db, base)
      invariant !ok
    {
      backend.crashed, backend.locked := false, false;
      ok := backend.RecoverTransactions(base);
      if ok { return; }
    }
  }

  /**
   A whole life of one transaction: its mutations, then commit or rollback, with a rollback as
   soon as a statement fails; then restarts of the store until recovery completes. Crashes may
   come anywhere, also during every recovery.
   */
  method Life(backend: Backend, id: Name, ms: seq<Mutation>, wantCommit: bool, attempts: nat)
    returns (committed: bool, recovered: bool, ghost report: Report)
    requires !backend.locked && !backend.crashed && backend.db.journal == map[]
    requires forall r | r in backend.db.keys :: r.tx != id
    modifies backend
    ensures recovered ==> backend.db.journal == map[] && backend.db.snapshots == map[] && backend.db.keys == {}
    ensures recovered ==> backend.db.tables == report.settled
    ensures Reports(report, old(backend.db.tables), Run(old(backend.db.tables), ms))
    ensures recovered && report.leaked == {} ==>
              OldOrNew(backend.db.tables, old(backend.db.tables), Run(old(backend.db.tables), ms))
    ensures recovered && report.committed == {} ==> backend.db.tables == old(backend.db.tables)
    ensures recovered && report.leaked == {} && (forall m | m in ms :: m.table in report.committed) ==>
              backend.db.tables == Run(old(backend.db.tables), ms)
    ensures recovered && report.restored ==>
              LeakedTearIff(report, old(backend.db.tables), Run(old(backend.db.tables), ms))
    ensures !wantCommit ==> report.committed == {}
    ensures recovered && committed ==> report.leaked == {} && backend.db.tables == Run(old(backend.db.tables), ms)
    ensures report.leaked != {} ==> wantCommit && !committed && report.refused
  {
    hide Recoverable, Settles, Journaled, Reports, Leaks, Outcome, LeakedTearIff, InStep, PartlyChanged, OldOrNew;
    ghost var base := backend.db.tables;
    var tx := new Transaction(backend, id);
    var done := true;
    committed := false;
    var i := 0;
    while done && i < |ms|
      invariant 0 <= i <= |ms| && tx.Valid() && !tx.closed && tx.base == base && fresh(tx) && tx.backend == backend &&
                tx.id == id
      invariant done ==> !backend.crashed && backend.db.tables == Run(base, ms[..i])
    {
      assert ms[..i + 1][..|ms[..i + 1]| - 1] == ms[..i];
      var result := tx.Exec(ms[i]);
      done := result.Done?;
      if done { i := i + 1; }
    }
    if done && wantCommit {
      assert ms[..i] == ms;
      var result;
      result, report := tx.Commit(None);
      committed := result.Done? && !backend.crashed;
      if committed { NothingJournaled(backend.db, report.settled); }
    } else {
      report := Report(base, {}, {}, false, false, backend.db, map[], id);
      var result := tx.Rollback();
      NothingCommitted(report, base, Run(base, ms));
    }
    recovered := Restart(backend, attempts, report.settled);
    ReportRead(report, base, Run(base, ms));
    TearsExactly(report, base, Run(base, ms));
    RunUntouched(base, ms);
  }

  lemma NothingCommitted(r: Report, base: Tables, new_: Tables)
    requires r.settled == base && r.committed == {} && r.leaked == {} && new_.Keys == base.Keys
    ensures Reports(r, base, new_)
  {
  }

  /** What the report says when nothing has leaked. */
  lemma ReportRead(r: Report, base: Tables, new_: Tables)
    requires Reports(r, base, new_)
    ensures r.leaked == {} ==> OldOrNew(r.settled, base, new_)
    ensures r.committed == {} ==> r.settled == base
    ensures r.leaked == {} && (forall t | t in base && t !in r.committed :: base[t] == new_[t]) ==> r.settled == new_
  {
  }

  /** Running mutations changes no table that none of them names. */
  lemma {:induction false} RunUntouched(tables: Tables, ms: seq<Mutation>)
    ensures forall t | t in tables && (forall m | m in ms :: m.table != t) :: Run(tables, ms)[t] == tables[t]
    decreases |ms|
  {
    if ms != [] {
      RunUntouched(tables, ms[..|ms| - 1]);
      assert ms[|ms| - 1] in ms;
      assert forall m | m in ms[..|ms| - 1] :: m in ms;
    }
  }

  // ---- A commit that tears ----

  /**
   Every commit of two tables or more can tear each table that may tear: it comes first, the deletion
   of its key records leaves `spare`, the drop of its snapshot is refused, then the journal row of
   the next table, and all else succeeds.
   */
  method CommitTears(tx: Transaction, torn: Name, spare: Option<RowKey>) returns (result: Result, ghost report: Report)
    requires tx.Valid() && !tx.closed && !tx.backend.crashed && |tx.snapshots| >= 2
    requires torn in tx.snapshots && torn in tx.base && torn in tx.backend.db.tables
    requires TearsWith(tx.base[torn], tx.backend.db.tables[torn], spare)
    modifies tx`closed, tx.backend
    ensures result.Failed? && !tx.backend.crashed && report.leaked == {torn} && report.restored
    ensures torn in report.settled && report.settled[torn] != tx.base[torn] &&
            report.settled[torn] != old(tx.backend.db.tables)[torn]
    ensures Recoverable(tx.backend.db, report.settled)
  {
    hide Recoverable, InStep, Leaks, Outcome, TearsWith, RestoredRows, Recorded, KeptBy, StaysWhole, OldOrNew,
         TornMayTear, Reports;
    ghost var before, new_ := tx.backend.db, tx.backend.db.tables;
    AddedIsRecorded(before, tx.base, tx.id, tx.snapshots, torn);
    var at := tx.backend.step;
    var keep := if spare.Some? then {KeyRecord(tx.id, torn, spare.value)} else {};
    var faults := map[at + 1 := Kept(keep), at + 2 := Refused, at + 3 := Refused];
    tx.backend.plan := Some(faults);
    KeptByScript(at, keep);
    assert tx.MayScript(torn, Some(faults), at);
    assert old(tx.backend.db) == before;
    result, report := tx.Commit(Some(torn));
    assert torn in report.leaked;
    KeysLeft(before, report.at, tx.id, torn, at, spare);
    TornRows(before, report.at, report.tx, torn, tx.base[torn], spare);
  }

  lemma KeptByScript(at: nat, keep: set<KeyRecord>)
    ensures var faults := map[at + 1 := Kept(keep), at + 2 := Refused, at + 3 := Refused];
            && (at !in faults && at + 2 in faults && at + 3 in faults && forall n | n in faults :: n < at + 4)
            && forall r :: KeptBy(faults, at + 1, r) <==> r in keep
  {
  }

  lemma KeysLeft(before: Db, db: Db, tx: Name, t: Name, at: nat, spare: Option<RowKey>)
    requires var keep := if spare.Some? then {KeyRecord(tx, t, spare.value)} else {};
             var faults := map[at + 1 := Kept(keep), at + 2 := Refused, at + 3 := Refused];
             forall k ::
               Recorded(db, tx, t, k) <==> Recorded(before, tx, t, k) && KeptBy(faults, at + 1, KeyRecord(tx, t, k))
    ensures forall k :: Recorded(db, tx, t, k) <==> Recorded(before, tx, t, k) && spare == Some(k)
  {
    hide Recorded;
  }

  /** A key that an open transaction has added is recorded. */
  lemma AddedIsRecorded(db: Db, base: Tables, tx: Name, snapshots: map<Name, SnapshotName>, t: Name)
    requires InStep(db, tx, snapshots) && Recoverable(db, base) && t in snapshots && t in base && t in db.tables
    ensures forall k | k in db.tables[t] && k !in base[t] :: Recorded(db, tx, t, k)
  {
    assert Covers(db, tx, t, db.snapshots[snapshots[t]], base[t]);
    forall k | k in db.tables[t] && k !in base[t] ensures Recorded(db, tx, t, k) {
      assert !SameAt(db.tables[t], base[t], k);
    }
  }

  lemma TornRows(before: Db, db: Db, tx: Name, table: Name, base: Table, spare: Option<RowKey>)
    requires table in db.tables && TearsWith(base, db.tables[table], spare)
    requires forall k | k in db.tables[table] && k !in base :: Recorded(before, tx, table, k)
    requires forall k :: Recorded(db, tx, table, k) <==> Recorded(before, tx, table, k) && spare == Some(k)
    ensures !StaysWhole(db, tx, table, base)
  {
    hide Recorded;
  }

  /** A transaction on an empty undo log that has replaced one row of two tables and added another. */
  method ChangeTwo(id: Name, a: Name, b: Name, k: RowKey, added: RowKey, r0: Row, r1: Row, r2: Row)
    returns (tx: Transaction)
    requires a != b && k != added && r0 != r1
    ensures fresh(tx) && fresh(tx.backend) && tx.Valid() && !tx.closed && !tx.backend.crashed &&
            tx.snapshots.Keys == {a, b}
    ensures tx.base == map[a := map[k := r0], b := map[k := r0]]
    ensures tx.backend.db.tables == map[a := map[k := r1, added := r2], b := map[k := r1, added := r2]]
  {
    hide Recoverable, InStep, Upsert, PartlyChanged;
    var base: Table := map[k := r0];
    var rows := [(k, r1), (added, r2)];
    var backend := new Backend(Db(map[a := base, b := base], map[], map[], {}));
    backend.plan := Some(map[]);
    tx := new Transaction(backend, id);
    var first := tx.Exec(Insert(a, rows, _ => true));
    var second := tx.Exec(Insert(b, rows, _ => true));
    BothChanged(a, b, base, rows, tx.backend.db.tables);
    TwoRows(base, rows, k, added, r0, r1, r2);
  }

  /** Such a commit, from an empty undo log. */
  method TearingRun(id: Name, a: Name, b: Name, k: RowKey, added: RowKey, r0: Row, r1: Row, r2: Row)
    returns (backend: Backend, result: Result, ghost report: Report)
    requires a != b && k != added && r0 != r1
    ensures result.Failed? && !backend.crashed && Recoverable(backend.db, report.settled)
    ensures a in report.settled && report.settled[a] !in {map[k := r0], map[k := r1, added := r2]}
  {
    hide Recoverable, TearsWith;
    var tx := ChangeTwo(id, a, b, k, added, r0, r1, r2);
    backend := tx.backend;
    TwoNames(tx.snapshots, a, b);
    TwoRows(map[k := r0], [(k, r1), (added, r2)], k, added, r0, r1, r2);
    result, report := CommitTears(tx, a, None);
  }

  lemma TwoNames(names: map<Name, SnapshotName>, a: Name, b: Name)
    requires names.Keys == {a, b} && a != b
    ensures |names| == 2
  {
  }

  lemma BothChanged(a: Name, b: Name, base: Table, rows: Snapshot, tables: Tables)
    requires a != b
    requires var one := Mutate(Db(map[a := base, b := base], map[], map[], {}), Insert(a, rows, _ => true));
             tables == Mutate(one, Insert(b, rows, _ => true)).tables
    ensures tables == map[a := Upsert(base, rows), b := Upsert(base, rows)]
  {
  }

  lemma TwoRows(base: Table, rows: Snapshot, k: RowKey, added: RowKey, r0: Row, r1: Row, r2: Row)
    requires base == map[k := r0] && rows == [(k, r1), (added, r2)] && k != added && r0 != r1
    ensures Upsert(base, rows) == map[k := r1, added := r2]
    ensures TearsWith(base, Upsert(base, rows), None)
  {
    assert rows[1..] == [(added, r2)] && rows[1..][1..] == [];
    var one := base[k := r1];
    assert Upsert(one, rows[1..]) == Upsert(one[added := r2], []) == one[added := r2];
    assert added in Upsert(base, rows) && !SameAt(Upsert(base, rows), base, k);
  }
}
