/**
 Start-up migration of one ClickHouse table to the columns the program expects: copy into a new
 table, compare counts, rename twice, drop the old one; and the recovery of an interrupted
 migration. A statement that fails may have done part of its work, and the program stops at the
 first failure, so a failing statement also stands for a crash during or after it.

 The reference is one value, the current table: every run leaves it alone or replaces it, in one
 step, by the same rows with the expected columns.
 */
module SchemaMigration {

  import opened Collections

  type Column(==, !new)
  type Value(==, !new)
  type Row = map<Column, Value>
  type Key = seq<Value>

  datatype Schema = Schema(keyColumns: seq<Column>, columns: seq<Column>, defaults: Row) {
    predicate Valid() {
      (forall c | c in keyColumns :: c in columns) && (forall c | c in columns :: c in defaults)
    }
  }

  /** Rows by primary key. The engine computes the key of a row from its key columns. */
  datatype Table = Table(keyColumns: seq<Column>, columns: seq<Column>, rows: map<Key, Row>) {
    predicate Valid() {
      && (forall c | c in keyColumns :: c in columns)
      && (forall k | k in rows :: rows[k].Keys == ColumnSet(columns) && KeyOf(keyColumns, rows[k]) == k)
    }
  }

  function ColumnSet(columns: seq<Column>): set<Column> {
    set c | c in columns
  }

  function KeyOf(keyColumns: seq<Column>, row: Row): Key
    requires forall c | c in keyColumns :: c in row
  {
    seq(|keyColumns|, i requires 0 <= i < |keyColumns| => row[keyColumns[i]])
  }

  function EmptyTable(s: Schema): Table {
    Table(s.keyColumns, s.columns, map[])
  }

  predicate Complete(columns: seq<Column>, s: Schema) {
    forall c | c in s.columns :: c in columns
  }

  predicate Supported(columns: seq<Column>, s: Schema) {
    forall c | c in columns :: c in s.columns
  }

  // ---- One row, one table ----

  /** A row written with the listed columns of another; the engine fills in the rest. */
  function Widen(row: Row, columns: seq<Column>, s: Schema): Row
    requires s.Valid() && forall c | c in columns :: c in row
  {
    map c | c in s.columns :: if c in columns then row[c] else s.defaults[c]
  }

  /** Row `k` of `t` under schema `s`, and the primary key it gets. */
  function NewRow(t: Table, k: Key, s: Schema): (r: Row)
    requires t.Valid() && s.Valid() && k in t.rows
    ensures r.Keys == ColumnSet(s.columns)
  {
    Widen(t.rows[k], t.columns, s)
  }

  function NewKey(t: Table, k: Key, s: Schema): Key
    requires t.Valid() && s.Valid() && k in t.rows
  {
    KeyOf(s.keyColumns, NewRow(t, k, s))
  }

  ghost predicate MergesNothing(t: Table, s: Schema)
    requires t.Valid() && s.Valid()
  {
    forall j, k | j in t.rows && k in t.rows && NewKey(t, j, s) == NewKey(t, k, s) :: j == k
  }

  /** Every row of `t`, with the columns of `s`. */
  ghost function Widened(t: Table, s: Schema): (r: Table)
    requires t.Valid() && s.Valid() && MergesNothing(t, s)
    ensures r.Valid()
  {
    var rows := map k | k in t.rows :: NewKey(t, k, s) := NewRow(t, k, s);
    assert forall n | n in rows :: rows[n].Keys == ColumnSet(s.columns) && KeyOf(s.keyColumns, rows[n]) == n by {
      forall n | n in rows ensures rows[n].Keys == ColumnSet(s.columns) && KeyOf(s.keyColumns, rows[n]) == n {
        var k :| k in t.rows && NewKey(t, k, s) == n;
      }
    }
    Table(s.keyColumns, s.columns, rows)
  }

  /** `rows` is what inserting the rows `keys` of `t` leaves, in some order; equal keys overwrite. */
  ghost predicate Copied(t: Table, s: Schema, keys: set<Key>, rows: map<Key, Row>)
    requires t.Valid() && s.Valid() && keys <= t.rows.Keys
  {
    && (forall k | k in keys :: NewKey(t, k, s) in rows)
    && (forall n | n in rows :: exists k | k in keys :: NewKey(t, k, s) == n && NewRow(t, k, s) == rows[n])
  }

  ghost function NewKeys(t: Table, s: Schema, keys: set<Key>): set<Key>
    requires t.Valid() && s.Valid() && keys <= t.rows.Keys
  {
    set k | k in keys :: NewKey(t, k, s)
  }

  /** An image as large as its source comes from a one-to-one map. */
  lemma {:induction false} NewKeysCount(t: Table, s: Schema, keys: set<Key>)
    requires t.Valid() && s.Valid() && keys <= t.rows.Keys
    ensures |NewKeys(t, s, keys)| <= |keys|
    ensures |NewKeys(t, s, keys)| == |keys| <==>
              forall j, k | j in keys && k in keys && NewKey(t, j, s) == NewKey(t, k, s) :: j == k
    decreases keys
  {
    if keys != {} {
      var k :| k in keys;
      var fewer := keys - {k};
      NewKeysCount(t, s, fewer);
      var n := NewKey(t, k, s);
      assert NewKeys(t, s, keys) == NewKeys(t, s, fewer) + {n};
      if n in NewKeys(t, s, fewer) {
        var j :| j in fewer && NewKey(t, j, s) == n;
      }
    }
  }

  /** The row counts agree exactly when the new key merges no two rows, and then every row is there. */
  lemma EqualCountsMergeNothing(t: Table, s: Schema, rows: map<Key, Row>)
    requires t.Valid() && s.Valid() && Copied(t, s, t.rows.Keys, rows)
    ensures |rows| == |t.rows| <==> MergesNothing(t, s)
    ensures MergesNothing(t, s) ==> Table(s.keyColumns, s.columns, rows) == Widened(t, s)
  {
    hide NewKey, NewRow, Table.Valid, Schema.Valid;
    assert rows.Keys == NewKeys(t, s, t.rows.Keys);
    NewKeysCount(t, s, t.rows.Keys);
    if MergesNothing(t, s) { CopiedIsWidened(t, s, rows); }
  }

  lemma CopiedIsWidened(t: Table, s: Schema, rows: map<Key, Row>)
    requires t.Valid() && s.Valid() && Copied(t, s, t.rows.Keys, rows) && MergesNothing(t, s)
    ensures rows == Widened(t, s).rows
  {
    hide NewKey, NewRow, Table.Valid, Schema.Valid;
    forall n | n in rows ensures n in Widened(t, s).rows && rows[n] == Widened(t, s).rows[n] {
      var k :| k in t.rows && NewKey(t, k, s) == n && NewRow(t, k, s) == rows[n];
    }
  }

  // ---- The reference: what a run may do to the current table ----

  predicate Widens(t: Table, s: Schema) {
    !Complete(t.columns, s) && Supported(t.columns, s)
  }

  ghost predicate Upgrades(before: Option<Table>, after: Option<Table>, s: Schema)
    requires s.Valid() && (before.Some? ==> before.value.Valid())
  {
    match before
    case None => after == Some(EmptyTable(s))
    case Some(t) => Widens(t, s) && MergesNothing(t, s) && after == Some(Widened(t, s))
  }

  ghost predicate SameOrUpgraded(before: Option<Table>, after: Option<Table>, s: Schema)
    requires s.Valid() && (before.Some? ==> before.value.Valid())
  {
    after == before || Upgrades(before, after, s)
  }

  lemma UpgradedIsComplete(before: Option<Table>, after: Option<Table>, s: Schema)
    requires s.Valid() && (before.Some? ==> before.value.Valid()) && Upgrades(before, after, s)
    ensures after.Some? && after.value.Valid() && Complete(after.value.columns, s)
  {
  }

  /** Any number of runs with one schema do what one run may do. */
  lemma OneSchemaOnce(a: Option<Table>, b: Option<Table>, c: Option<Table>, s: Schema)
    requires s.Valid() && (a.Some? ==> a.value.Valid()) && (b.Some? ==> b.value.Valid())
    requires SameOrUpgraded(a, b, s) && SameOrUpgraded(b, c, s)
    ensures SameOrUpgraded(a, c, s)
  {
    if b != a {
      UpgradedIsComplete(a, b, s);
    }
  }

  // ---- No row is lost ----

  function Restrict(row: Row, columns: seq<Column>): Row {
    map c | c in row && c in columns :: row[c]
  }

  function Restricted(t: Table, columns: seq<Column>): set<Row> {
    set k | k in t.rows :: Restrict(t.rows[k], columns)
  }

  /** The table, or one without columns and rows. */
  function OrEmpty(t: Option<Table>): Table {
    if t.Some? then t.value else Table([], [], map[])
  }

  /** `t` has the rows of `original`, no more and no fewer, and only gained columns. */
  ghost predicate Keeps(t: Table, original: Table) {
    && (forall c | c in original.columns :: c in t.columns)
    && |t.rows| == |original.rows|
    && Restricted(t, original.columns) == Restricted(original, original.columns)
  }

  lemma NewRowKeeps(t: Table, k: Key, s: Schema, columns: seq<Column>)
    requires t.Valid() && s.Valid() && k in t.rows && Supported(t.columns, s)
    requires forall c | c in columns :: c in t.columns
    ensures Restrict(NewRow(t, k, s), columns) == Restrict(t.rows[k], columns)
  {
    forall c | c in columns ensures c in t.rows[k] && c in s.columns {
      assert c in ColumnSet(t.columns);
    }
  }

  lemma WidenedRestricts(t: Table, s: Schema, columns: seq<Column>)
    requires t.Valid() && s.Valid() && MergesNothing(t, s) && Supported(t.columns, s)
    requires forall c | c in columns :: c in t.columns
    ensures Restricted(Widened(t, s), columns) == Restricted(t, columns)
  {
    hide NewKey, NewRow, Restrict, Supported, Table.Valid, Schema.Valid;
    var w := Widened(t, s);
    forall k | k in t.rows
      ensures NewKey(t, k, s) in w.rows && Restrict(w.rows[NewKey(t, k, s)], columns) == Restrict(t.rows[k], columns)
    {
      NewRowKeeps(t, k, s, columns);
    }
    forall r | r in Restricted(t, columns) ensures r in Restricted(w, columns) {
      var k :| k in t.rows && Restrict(t.rows[k], columns) == r;
      assert NewKey(t, k, s) in w.rows;
    }
    forall r | r in Restricted(w, columns) ensures r in Restricted(t, columns) {
      var n :| n in w.rows && Restrict(w.rows[n], columns) == r;
      var k :| k in t.rows && NewKey(t, k, s) == n;
    }
  }

  lemma WidenedKeeps(t: Table, s: Schema, original: Table)
    requires t.Valid() && s.Valid() && MergesNothing(t, s) && Supported(t.columns, s) && Keeps(t, original)
    ensures Keeps(Widened(t, s), original)
  {
    hide NewKey, NewRow, Restricted, Supported, Table.Valid, Schema.Valid;
    WidenedRestricts(t, s, original.columns);
    SupportedGrows(t, s, original);
    assert Widened(t, s).rows.Keys == NewKeys(t, s, t.rows.Keys);
    NewKeysCount(t, s, t.rows.Keys);
  }

  lemma SupportedGrows(t: Table, s: Schema, original: Table)
    requires Supported(t.columns, s) && forall c | c in original.columns :: c in t.columns
    ensures forall c | c in original.columns :: c in s.columns
  {
  }

  /** Runs of any versions, one after the other, keep the rows they began with. */
  lemma RunKeepsRows(before: Option<Table>, after: Option<Table>, s: Schema, original: Table)
    requires s.Valid() && (before.Some? ==> before.value.Valid()) && SameOrUpgraded(before, after, s)
    requires Keeps(OrEmpty(before), original)
    ensures Keeps(OrEmpty(after), original)
  {
    if after != before {
      if before.Some? {
        WidenedKeeps(before.value, s, original);
      } else {
        assert Restricted(EmptyTable(s), original.columns) == {} == Restricted(OrEmpty(before), original.columns);
        assert forall c | c in original.columns :: c in OrEmpty(before).columns;
      }
    }
  }

  // ---- The three tables behind one name ----

  datatype Outcome =
    | Completed
    | Failed
    | TwoSources
    | Unsupported(column: Column)
    | Incomplete(copied: nat, total: nat)

  /** `clickHouseSchemaComplete`. */
  method HasColumns(current: seq<Column>, expected: seq<Column>) returns (all: bool)
    ensures all <==> forall c | c in expected :: c in current
  {
    var available: set<Column> := {};
    for i := 0 to |current|
      invariant available == ColumnSet(current[..i])
    {
      available := available + {current[i]};
      assert current[..i + 1] == current[..i] + [current[i]];
    }
    assert current[..|current|] == current;
    for i := 0 to |expected|
      invariant forall c | c in expected[..i] :: c in current
    {
      if expected[i] !in available {
        return false;
      }
      assert expected[..i + 1] == expected[..i] + [expected[i]];
    }
    assert expected[..|expected|] == expected;
    return true;
  }

  class Store {
    var source: Option<Table>
    var temporary: Option<Table>
    var backup: Option<Table>
    /** No statement or query fails that could succeed. */
    const reliable: bool

    constructor (source: Option<Table>, reliable: bool)
      requires source.Some? ==> source.value.Valid()
      ensures Valid() && this.source == source && temporary == None && backup == None && this.reliable == reliable
    {
      this.source, temporary, backup, this.reliable := source, None, None, reliable;
    }

    predicate Valid()
      reads this
    {
      && (source.Some? ==> source.value.Valid())
      && (temporary.Some? ==> temporary.value.Valid())
      && (backup.Some? ==> backup.value.Valid())
    }

    /** The table that holds the rows: the source, or the backup while there is no source. */
    function Current(): Option<Table>
      reads this
    {
      if source.Some? then source else backup
    }

    /** Where both source and backup exist, the source is the finished copy. */
    predicate Settled(s: Schema)
      reads this
    {
      source.Some? && backup.Some? ==> Complete(source.value.columns, s)
    }

    predicate Ready(s: Schema)
      reads this
    {
      source.Some? && temporary == None && backup == None && Complete(source.value.columns, s)
    }

    // ---- Statements ----

    method Query() returns (ok: bool)
      ensures reliable ==> ok
    {
      ok := reliable;
      if !ok { ok := *; }
    }

    method CreateSource(s: Schema) returns (ok: bool)
      requires Valid() && s.Valid()
      modifies `source
      ensures Valid() && (reliable ==> ok)
      ensures source == old(source) || (old(source) == None && source == Some(EmptyTable(s)))
      ensures ok ==> source.Some?
    {
      ok := Query();
      if ok && source == None {
        source := Some(EmptyTable(s));
      }
    }

    method CreateTemporary(s: Schema) returns (ok: bool)
      requires Valid() && s.Valid()
      modifies `temporary
      ensures Valid() && (reliable ==> ok)
      ensures temporary == old(temporary) || (old(temporary) == None && temporary == Some(EmptyTable(s)))
      ensures ok ==> temporary.Some?
    {
      ok := Query();
      if ok && temporary == None {
        temporary := Some(EmptyTable(s));
      }
    }

    method DropTemporary() returns (ok: bool)
      modifies `temporary
      ensures reliable && old(temporary).Some? ==> ok
      ensures temporary == (if ok then None else old(temporary))
    {
      ok := Query();
      ok := ok && temporary.Some?;
      if ok { temporary := None; }
    }

    method DropBackup() returns (ok: bool)
      modifies `backup
      ensures reliable && old(backup).Some? ==> ok
      ensures backup == (if ok then None else old(backup))
    {
      ok := Query();
      ok := ok && backup.Some?;
      if ok { backup := None; }
    }

    method RenameBackup() returns (ok: bool)
      modifies `source, `backup
      ensures reliable && old(source) == None && old(backup).Some? ==> ok
      ensures ok ==> old(source) == None && old(backup).Some? && source == old(backup) && backup == None
      ensures !ok ==> source == old(source) && backup == old(backup)
    {
      ok := Query();
      ok := ok && source == None && backup.Some?;
      if ok { source, backup := backup, None; }
    }

    /** Copies row by row in any order; a failure leaves the rows copied so far. */
    method CopyRows(s: Schema) returns (ok: bool)
      requires Valid() && s.Valid() && source.Some? && temporary == Some(EmptyTable(s))
      modifies `temporary
      ensures Valid() && (reliable ==> ok)
      ensures temporary.Some? && temporary.value.keyColumns == s.keyColumns && temporary.value.columns == s.columns
      ensures ok ==> Copied(source.value, s, source.value.rows.Keys, temporary.value.rows)
    {
      hide NewRow, NewKey, Copied, Table.Valid, Schema.Valid;
      var t := source.value;
      var left := t.rows.Keys;
      var rows: map<Key, Row> := map[];
      NoneCopied(t, s);
      assert t.rows.Keys - left == {};
      while left != {}
        invariant left <= t.rows.Keys && temporary == Some(Table(s.keyColumns, s.columns, rows)) && Valid()
        invariant Copied(t, s, t.rows.Keys - left, rows)
        decreases |left|
      {
        ok := Query();
        if !ok { return; }
        var k :| k in left;
        ghost var done := t.rows.Keys - left;
        CopyOne(t, s, done, rows, k);
        rows := rows[NewKey(t, k, s) := NewRow(t, k, s)];
        left := left - {k};
        assert t.rows.Keys - left == done + {k};
        temporary := Some(Table(s.keyColumns, s.columns, rows));
      }
      assert t.rows.Keys - left == t.rows.Keys;
      ok := true;
    }

    /** Two renames in one statement, which may stop between them. */
    method Activate() returns (ok: bool)
      requires Valid()
      modifies `source, `temporary, `backup
      ensures Valid() && (reliable && old(source).Some? && old(temporary).Some? && old(backup) == None ==> ok)
      ensures ok ==>
                source == old(temporary) && temporary == None && backup == old(source) && source.Some? && backup.Some?
      ensures !ok ==>
                Current() == old(Current()) && temporary == old(temporary) &&
                  ((source == old(source) && backup == old(backup)) || source == None)
    {
      ok := Query();
      ok := ok && source.Some? && backup == None;
      if ok {
        source, backup := None, source;
        ok := Query();
        ok := ok && temporary.Some?;
        if ok {
          source, temporary := temporary, None;
        }
      }
    }

    // ---- Recovery and migration ----

    method Recover(s: Schema) returns (r: Outcome)
      requires Valid() && s.Valid()
      modifies this
      ensures Valid() && Current() == old(Current())
      ensures r.Completed? ==> temporary == None && backup == None
      ensures r.TwoSources? ==> old(source).Some? && old(backup).Some? && !Complete(old(source).value.columns, s)
      ensures r.TwoSources? ==> source == old(source) && backup == old(backup)
      ensures old(Settled(s)) ==> !r.TwoSources? && Settled(s)
      ensures reliable && !old(Settled(s)) ==> r.TwoSources?
      ensures reliable && old(Settled(s)) ==> r.Completed?
      ensures r.Completed? || r.Failed? || r.TwoSources?
    {
      var ok := Query();
      if !ok { return Failed; }
      var sourceExists := source.Some?;
      ok := Query();
      if !ok { return Failed; }
      var backupExists := backup.Some?;
      if !sourceExists && backupExists {
        ok := RenameBackup();
        if !ok { return Failed; }
        sourceExists, backupExists := true, false;
      }
      ok := Query();
      if !ok { return Failed; }
      var temporaryExists := temporary.Some?;
      if temporaryExists {
        ok := DropTemporary();
        if !ok { return Failed; }
      }
      if sourceExists && backupExists {
        ok := Query();
        if !ok { return Failed; }
        var complete := HasColumns(source.value.columns, s.columns);
        if !complete { return TwoSources; }
        ok := DropBackup();
        if !ok { return Failed; }
      }
      return Completed;
    }

    method Migrate(s: Schema) returns (r: Outcome)
      requires Valid() && s.Valid() && source.Some? && temporary == None && backup == None
      modifies this
      ensures Valid() && Settled(s)
      ensures SameOrUpgraded(old(source), Current(), s)
      ensures r.Completed? ==> Ready(s)
      ensures !r.Completed? && !r.Failed? ==> Current() == old(source)
      ensures r.Unsupported? ==>
                r.column in old(source).value.columns && r.column !in s.columns &&
                  !Complete(old(source).value.columns, s)
      ensures r.Incomplete? ==>
                Widens(old(source).value, s) &&
                  (MergesNothing(old(source).value, s) ==> old(source).value.columns == [])
      ensures r.Failed? ==> !reliable
      ensures !r.TwoSources?
    {
      var ok := Query();
      if !ok { return Failed; }
      var current := source.value.columns;
      var complete := HasColumns(current, s.columns);
      if complete { return Completed; }
      for i := 0 to |current|
        invariant forall c | c in current[..i] :: c in s.columns
      {
        if current[i] !in s.columns {
          return Unsupported(current[i]);
        }
        assert current[..i + 1] == current[..i] + [current[i]];
      }
      assert current[..|current|] == current;
      r := Replace(s);
    }

    /** The part of a migration that follows its checks: copy, count, rename, drop. */
    method Replace(s: Schema) returns (r: Outcome)
      requires Valid() && s.Valid() && source.Some? && temporary == None && backup == None && Widens(source.value, s)
      modifies this
      ensures Valid() && Settled(s)
      ensures SameOrUpgraded(old(source), Current(), s)
      ensures r.Completed? ==> Ready(s)
      ensures r.Incomplete? ==>
                Current() == old(source) && (MergesNothing(old(source).value, s) ==> old(source).value.columns == [])
      ensures r.Failed? ==> !reliable
      ensures r.Completed? || r.Incomplete? || r.Failed?
    {
      hide MergesNothing, Widened, Copied, Table.Valid, Schema.Valid;
      ghost var t := source.value;
      var ok := CreateTemporary(s);
      if !ok { return Failed; }
      if |source.value.columns| > 0 {
        ok := CopyRows(s);
        if !ok { return Failed; }
        EqualCountsMergeNothing(t, s, temporary.value.rows);
      }
      ok := Query();
      if !ok { return Failed; }
      var total := |source.value.rows|;
      ok := Query();
      if !ok { return Failed; }
      var copied := |temporary.value.rows|;
      if total != copied {
        return Incomplete(copied, total);
      }
      if |source.value.columns| == 0 { NothingToCopy(t, s); }
      assert temporary == Some(Widened(t, s));
      ok := Activate();
      if !ok { return Failed; }
      ok := DropBackup();
      if !ok { return Failed; }
      return Completed;
    }

    method Initialize(s: Schema) returns (r: Outcome)
      requires Valid() && s.Valid()
      modifies this
      ensures Valid() && SameOrUpgraded(old(Current()), Current(), s)
      ensures r.Completed? ==> Ready(s)
      ensures old(Settled(s)) ==> !r.TwoSources? && Settled(s)
      ensures r.TwoSources? ==> !old(Settled(s)) && source == old(source) && backup == old(backup)
      ensures !r.Completed? && !r.Failed? ==> Current() == old(Current()) && Current().Some?
      ensures r.Unsupported? ==> !Supported(Current().value.columns, s) && !Complete(Current().value.columns, s)
      ensures r.Incomplete? ==>
                Widens(Current().value, s) && (MergesNothing(Current().value, s) ==> Current().value.columns == [])
      ensures r.Failed? ==> !reliable
    {
      r := Recover(s);
      if !r.Completed? { return; }
      var ok := CreateSource(s);
      if !ok { return Failed; }
      ghost var created := Current();
      r := Migrate(s);
      OneSchemaOnce(old(Current()), created, Current(), s);
    }
  }

  /** The states from which nothing but a failure can stop a run. */
  ghost predicate CanUpgrade(t: Option<Table>, s: Schema)
    requires s.Valid() && (t.Some? ==> t.value.Valid())
  {
    t.Some? && !Complete(t.value.columns, s) ==>
      Supported(t.value.columns, s) && MergesNothing(t.value, s) && t.value.columns != []
  }

  /**
   Restarts of one version: whatever fails, and however often, the current table is the one there
   was or its upgrade, the two-sources error never appears, and a run without failures completes.
   */
  method RestartUntilDone(store: Store, s: Schema, attempts: nat) returns (r: Outcome)
    requires store.Valid() && s.Valid() && store.Settled(s)
    modifies store
    ensures store.Valid() && store.Settled(s)
    ensures SameOrUpgraded(old(store.Current()), store.Current(), s)
    ensures r.Completed? ==> store.Ready(s)
    ensures !r.TwoSources?
    ensures store.reliable && attempts > 0 && CanUpgrade(old(store.Current()), s) ==> r.Completed?
  {
    ghost var before := store.Current();
    r := Failed;
    for i := 0 to attempts
      invariant store.Valid() && store.Settled(s) && SameOrUpgraded(before, store.Current(), s)
      invariant !r.Completed? && !r.TwoSources?
      invariant store.reliable && CanUpgrade(before, s) ==> i == 0
    {
      ghost var current := store.Current();
      r := store.Initialize(s);
      OneSchemaOnce(before, current, store.Current(), s);
      if r.Completed? { return; }
    }
  }

  /** Runs of any sequence of versions, interrupted anywhere, lose no row and no column. */
  method RunVersions(store: Store, versions: seq<Schema>)
    requires store.Valid() && forall i | 0 <= i < |versions| :: versions[i].Valid()
    modifies store
    ensures store.Valid()
    ensures Keeps(OrEmpty(store.Current()), OrEmpty(old(store.Current())))
  {
    ghost var original := OrEmpty(store.Current());
    for i := 0 to |versions|
      invariant store.Valid() && Keeps(OrEmpty(store.Current()), original)
    {
      ghost var current := store.Current();
      var r := store.Initialize(versions[i]);
      RunKeepsRows(current, store.Current(), versions[i], original);
    }
  }

  /**
   The two-sources error can be reached, by a version that expects more columns than the one that
   was interrupted before it dropped the backup. Recovery alone does not leave that state.
   */
  method NewVersionIsStranded(store: Store, older: Schema, newer: Schema) returns (r: Outcome)
    requires store.Valid() && store.reliable && store.temporary == None && store.backup == None
    requires older.Valid() && newer.Valid() && store.source.Some?
    requires Widens(store.source.value, older) && MergesNothing(store.source.value, older)
    requires !Complete(older.columns, newer)
    modifies store
    ensures r.TwoSources? && store.Valid()
    ensures store.source == Some(Widened(old(store.source).value, older)) && store.backup == old(store.source)
  {
    hide MergesNothing, Copied, Widened, Table.Valid, Schema.Valid;
    ghost var t := store.source.value;
    var created := store.CreateTemporary(older);
    var copied := store.CopyRows(older);
    EqualCountsMergeNothing(t, older, store.temporary.value.rows);
    assert store.temporary == Some(Widened(t, older));
    var activated := store.Activate();
    WidenedColumns(t, older);
    r := store.Recover(newer);
  }

  lemma WidenedColumns(t: Table, s: Schema)
    requires t.Valid() && s.Valid() && MergesNothing(t, s)
    ensures Widened(t, s).columns == s.columns
  {
  }

  /** `initializeClickHouseSchema`: every table in turn, until one fails. */
  method InitializeAll(stores: seq<Store>, schemas: seq<Schema>) returns (r: Outcome)
    requires |stores| == |schemas|
    requires forall i, j | 0 <= i < j < |stores| :: stores[i] != stores[j]
    requires forall i | 0 <= i < |stores| :: stores[i].Valid() && schemas[i].Valid()
    modifies stores
    ensures forall i | 0 <= i < |stores| :: stores[i].Valid()
    ensures forall i | 0 <= i < |stores| ::
              old(stores[i].Valid()) && SameOrUpgraded(old(stores[i].Current()), stores[i].Current(), schemas[i])
    ensures r.Completed? ==> forall i | 0 <= i < |stores| :: stores[i].Ready(schemas[i])
    ensures r.TwoSources? ==> exists i | 0 <= i < |stores| :: !old(stores[i].Settled(schemas[i]))
  {
    hide SameOrUpgraded;
    forall i | 0 <= i < |stores| ensures SameOrUpgraded(stores[i].Current(), stores[i].Current(), schemas[i]) {
      SameIsAllowed(stores[i].Current(), schemas[i]);
    }
    for n := 0 to |stores|
      invariant forall i | 0 <= i < |stores| :: stores[i].Valid()
      invariant forall i | 0 <= i < n ::
                  SameOrUpgraded(old(stores[i].Current()), stores[i].Current(), schemas[i]) &&
                    stores[i].Ready(schemas[i])
      invariant forall i | n <= i < |stores| :: unchanged(stores[i])
    {
      r := stores[n].Initialize(schemas[n]);
      if !r.Completed? {
        return;
      }
    }
    r := Completed;
  }

  lemma SameIsAllowed(t: Option<Table>, s: Schema)
    requires s.Valid() && (t.Some? ==> t.value.Valid())
    ensures SameOrUpgraded(t, t, s)
  {
  }

  lemma NoneCopied(t: Table, s: Schema)
    requires t.Valid() && s.Valid()
    ensures Copied(t, s, {}, map[]) && EmptyTable(s) == Table(s.keyColumns, s.columns, map[])
  {
  }

  lemma CopyOne(t: Table, s: Schema, done: set<Key>, rows: map<Key, Row>, k: Key)
    requires t.Valid() && s.Valid() && done <= t.rows.Keys && k in t.rows && Copied(t, s, done, rows)
    requires Table(s.keyColumns, s.columns, rows).Valid()
    ensures Copied(t, s, done + {k}, rows[NewKey(t, k, s) := NewRow(t, k, s)])
    ensures Table(s.keyColumns, s.columns, rows[NewKey(t, k, s) := NewRow(t, k, s)]).Valid()
  {
    var after := rows[NewKey(t, k, s) := NewRow(t, k, s)];
    forall n | n in after
      ensures exists j | j in done + {k} :: NewKey(t, j, s) == n && NewRow(t, j, s) == after[n]
    {
      if n == NewKey(t, k, s) {
        assert k in done + {k};
      } else {
        var j :| j in done && NewKey(t, j, s) == n && NewRow(t, j, s) == rows[n];
        assert j in done + {k};
      }
    }
  }

  lemma NothingToCopy(t: Table, s: Schema)
    requires t.Valid() && s.Valid() && t.columns == [] && |t.rows| == 0
    ensures MergesNothing(t, s) && Widened(t, s) == EmptyTable(s)
  {
  }
}
