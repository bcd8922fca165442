# RenoP verification model

Dafny models of the parts of RenoP that have to be right when a statement fails, a process dies or
two callers meet, with proofs about every run of them.

- `UndoLogStore`, `UndoLog`: the undo log that gives ClickHouse transactions. The store has tables,
  snapshot tables, a journal and recorded keys; a statement is applied, refused, or the last before
  a crash, in which case any part of it may be durable; one on rows or key records may fail half-way
  without a crash too. `Recoverable(db, base)` says that start-up recovery ends with the tables
  `base`; each step keeps it.
- `SchemaMigration`: copying a table to new columns and its restart. A failing statement may have
  done part of its work and ends the run, so it also stands for a crash. The reference is one value,
  the current table, that a run leaves or replaces in one step.
- `StartUp`: the two together, as the backend is opened after a crash inside a transaction.
- `SqlText`, `SqlWhere`, `SqlInsert`, `SqlPrint`, `RowKey`: the scanners the undo log relies on,
  proved against one automaton over characters, and the row keys they find, proved by printing
  statements and reading them back.
- `UndoInsert`: both together: the keys found in the text of an INSERT are those the undo log needs.
- `TtlCache`, `FileCache`, `IndexedMap`: three caches against the simple thing they speed up. The
  first and last are state machines over all interleavings, the second is the class itself.
- `CargoTables`, `CargoRegistry`: ownership, invitations, yanking, archiving, publication and its
  rollback. `CargoTables` has the statements as functions and what they promise, `CargoRegistry` the
  operations.
- `Caddyfile`: splicing the managed block into a Caddyfile.
- `AccountEmails`: ownership of email addresses.
- `Collections`: what they share.

Opaque types (`Name`, `Row`, `Key` ...) stand for values the code only copies and compares.
Statements that may fail are methods that choose freely; external events are steps or parameters.

`dafny verify dfyconfig.toml` checks the project.

## Results that differ from the expectation

- A commit can tear a table when its snapshot cannot be dropped and a later journal delete is
  refused (`UndoLog.TearingRun`). With a completed restore it can exactly if it has two tables or
  more and one of them gained a key and either changed a base row or gained a second key
  (`UndoLog.Transaction.Commit` and `UndoLog.CommitTears`, the two directions); whether it has is
  decided by the records left (`UndoLogStore.RestoredTearsIff`). Every other table is old or new
  (`UndoLog.Life`).
- A new version that widens a table cannot recover a transaction that a crash left on it: the saved
  rows are refused after the changed ones are deleted (`StartUp.Start`, both directions).
- The error "two incomplete source tables" cannot arise while one version restarts
  (`SchemaMigration.RestartUntilDone`), but a newer version with more columns reaches it and stays
  there (`SchemaMigration.NewVersionIsStranded`).
- A waiter for another caller's load may get an outdated value (`TtlCache.WaiterIsStale`); the exact
  condition is `TtlCache.WaiterIsFreshIff`.
- `BuildCaddyfile` is not idempotent on files without CRLF and without a block that end in a
  carriage return (`Caddyfile.BuildTwice`, both directions).
- The placeholder scan takes a backslash as an escape and the literal parser does not. A key text
  that then shows a placeholder is refused (`SqlPrint.InsertValuesKeys`, exactly when); a text of
  another column that hides one shifts the arguments, and a later key column silently gets another
  value (`SqlPrint.ShiftedKey`). `SqlPrint.AlwaysWrittenIff` says for which texts the keys are right.

## Model

| member | source | states |
|---|---|---|
| `UndoLog.Life` | internal/database/clickhouse_transaction.go:23-204 | a whole transaction with a crash anywhere, also inside any recovery: once recovery completes no undo-log row or snapshot table is left; every table is wholly old or wholly new, but for a table whose snapshot leaked before a refused journal delete, which is torn exactly under the stated condition; all tables are old when no journal row was deleted by commit, all new when every one was, all old after a rollback and all new after a commit that returned |
| `UndoLog.Restart` | internal/database/clickhouse_transaction.go:147-204 | start-up recovery may be interrupted at any statement and run again: the tables it will end with do not change, and a completed run ends with them, with empty journal and key tables and no `_renop_tx_` table |
| `UndoLog.Backend.RecoverTransactions` | internal/database/clickhouse_transaction.go:147-204 | one run of recovery, interrupted or not, keeps what the store recovers to |
| `UndoLog.Backend.RestoreSnapshot` | internal/database/clickhouse_transaction.go:112-145 | restoring one table keeps what the store recovers to, and a completed restore leaves the table as it was and forgets it |
| `UndoLog.Backend.RestoreRows` | internal/database/clickhouse_transaction.go:121-130 | deleting the recorded rows and inserting the snapshot gives back the old table, and a stop in between is still recoverable |
| `UndoLog.Backend.ForgetTable` | internal/database/clickhouse_transaction.go:131-143 | dropping the undo records in this order (keys, journal row, snapshot) never leaves a journal row that recovery would misread |
| `UndoLog.Backend.DropOrphans` | internal/database/clickhouse_transaction.go:175-191 | exactly the snapshot tables that no journal row named are dropped |
| `UndoLog.Backend.OpenSnapshot` | internal/database/clickhouse_transaction.go:27-41 | the snapshot table exists whenever its journal row does, whatever statement fails |
| `UndoLog.Backend.SaveRow` | internal/database/clickhouse_transaction.go:47-63 | a row is copied before its key is recorded, so that a recorded key always has its old row or is known to have had none |
| `UndoLog.Backend.SaveRows` | internal/database/clickhouse_transaction.go:42-64 | every key the mutation names is recorded, each at most once, before the mutation runs |
| `UndoLog.Backend.MutationKeys` | internal/database/clickhouse_transaction.go:232-261 | the keys listed are those of the inserted rows or of the matching rows |
| `UndoLog.Transaction.constructor` | internal/database/clickhouse.go:208-213 | a transaction begins with the lock held, no snapshot, and the present tables as the ones to return to |
| `UndoLog.Transaction.Exec` | internal/database/clickhouse.go:215-227 | a statement saves before it mutates; when it succeeds exactly its mutation is applied, when it fails each row of its table is as before or as mutated and no other table changes, and a closed transaction refuses it; either way the old tables stay recoverable |
| `UndoLog.Backend.Alter` | internal/database/clickhouse_transaction.go:121-137 | a statement on rows or key records may fail after any part of its work, with or without a crash, and still the store recovers to the same tables if the whole statement was safe |
| `UndoLog.Transaction.EnsureOpen` | internal/database/clickhouse_transaction.go:23-41 | the first touch of a table opens its snapshot; the tables do not change |
| `UndoLog.Transaction.RestoreSnapshots` | internal/database/clickhouse_transaction.go:97-105 | every listed table is restored, one failure not stopping the others; a table without a journal row whose snapshot is still there is rewritten from it, and nothing else changes |
| `UndoLog.Transaction.Rollback` | internal/database/clickhouse_transaction.go:89-95 | rolling back after any mutations brings every table back exactly; after a commit or rollback it changes nothing |
| `UndoLog.Transaction.Commit` | internal/database/clickhouse_transaction.go:68-87 | each table commits when its journal row goes: afterwards the journaled tables recover old and the others new, except that after a refused journal delete a table whose snapshot leaked is rewritten; with a completed restore such a table is torn only if the commit has two tables or more and the table gained a key and either changed a base row or gained a second key |
| `UndoLog.CommitTears` | internal/database/clickhouse_transaction.go:68-87 | the other direction: every commit of two or more tables can tear each of them that gained a key and either changed a base row or gained a second key, when it comes first, its key records go but for one or all, its snapshot drop and then the next journal delete are refused, and all else succeeds |
| `UndoLog.Transaction.RestoreRefused` | internal/database/clickhouse_transaction.go:73-77 | after a refused journal delete every table not yet committed recovers old, every committed one without a snapshot new, and a leaked one is as its restore left it |
| `UndoLog.TearingRun` | internal/database/clickhouse_transaction.go:23-87 | from an empty undo log, two mutations and such a commit: a run whose outcome is neither the old nor the new table |
| `UndoLog.Transaction.CommitTables` | internal/database/clickhouse_transaction.go:73-85 | at every point of the commit loop each table settles on old or new according to its journal row |
| `UndoLog.Transaction.CommitTable` | internal/database/clickhouse_transaction.go:74-84 | deleting the journal row is the commit point of the table; failed clean-up afterwards does not undo it |
| `UndoLogStore.RestoreGivesBase` | internal/database/clickhouse_transaction.go:121-130 | removing the recorded keys and inserting the snapshot yields the table before the transaction, whatever was done to the recorded keys |
| `UndoLogStore.MutationSafe` | internal/database/clickhouse.go:226 | a mutation whose keys are recorded, applied in whole or in part, does not change what the store recovers to |
| `UndoLogStore.CommitsTable` | internal/database/clickhouse_transaction.go:74-77 | without its journal row a table recovers to its present rows, and the other tables as before |
| `UndoLogStore.CopySafe` | internal/database/clickhouse_transaction.go:55-58 | copying a row to the snapshot in whole or in part keeps what the store recovers to |
| `UndoLogStore.RecordSafe` | internal/database/clickhouse_transaction.go:59-63 | recording a key whose row is saved keeps what the store recovers to |
| `UndoLogStore.OpenSafe` | internal/database/clickhouse_transaction.go:34-40 | adding the journal row of an untouched table with an empty snapshot keeps what the store recovers to |
| `UndoLogStore.NothingJournaled` | internal/database/clickhouse_transaction.go:199-203 | an empty journal means the tables are the ones to return to |
| `UndoLogStore.RestoredTearsIff` | internal/database/clickhouse_transaction.go:121-130 | a leaked table that is restored is old or new exactly if every key it gained is still recorded, or none is and no base row has changed or gone |
| `UndoLogStore.CommittedLeaks` | internal/database/clickhouse_transaction.go:74-77 | when a journal row is deleted, the snapshot holds old rows only, every old row that has changed, and every recorded old row |
| `SchemaMigration.RestartUntilDone` | internal/database/clickhouse_schema.go:532-548 | restarts of one version, failing at any statement any number of times: the current table is the one there was or the same rows with the expected columns, the two-sources error never appears, and a run without failures completes |
| `SchemaMigration.RunVersions` | internal/database/clickhouse_schema.go:432-548 | runs of any sequence of versions, interrupted anywhere, keep every row and every column |
| `SchemaMigration.InitializeAll` | internal/database/clickhouse_schema.go:532-548 | every table is left alone or upgraded in one step; completion means every table has its columns and nothing is left over |
| `SchemaMigration.Store.Initialize` | internal/database/clickhouse_schema.go:538-546 | what each outcome of recover, create and migrate says about the current table |
| `SchemaMigration.Store.Recover` | internal/database/clickhouse_schema.go:432-474 | recovery never changes the current table, clears what an interrupted migration left, and fails with two sources exactly when source and backup both exist and the source lacks a column |
| `SchemaMigration.Store.Migrate` | internal/database/clickhouse_schema.go:476-530 | the current table stays or is replaced by all its rows widened; an unsupported column or a count mismatch leaves it |
| `SchemaMigration.Store.Replace` | internal/database/clickhouse_schema.go:497-529 | copy, count, double rename, drop: interrupted anywhere, the rows are in the source or the backup |
| `SchemaMigration.Store.CopyRows` | internal/database/clickhouse_schema.go:504-510 | a completed copy holds every row under its new key; an interrupted one some of them |
| `SchemaMigration.Store.Activate` | internal/database/clickhouse_schema.go:522-525 | the two renames, stopped between them or not, keep the current table or replace it by the copy |
| `SchemaMigration.EqualCountsMergeNothing` | internal/database/clickhouse_schema.go:512-521 | the counts agree exactly when the new key merges no two rows, and then the copy is the widened table |
| `SchemaMigration.RunKeepsRows` | internal/database/clickhouse_schema.go:476-530 | an upgrade keeps the rows of any earlier table, restricted to its columns, no more and no fewer |
| `SchemaMigration.OneSchemaOnce` | internal/database/clickhouse_schema.go:479-485 | any number of runs with one schema do what one run may do |
| `SchemaMigration.NewVersionIsStranded` | internal/database/clickhouse_schema.go:461-467 | for every table and two versions: a newer version that starts after the older one crashed before dropping the backup fails with two sources, with all rows kept |
| `SchemaMigration.HasColumns` | internal/database/clickhouse_schema.go:419-430 | true exactly when every expected column is present |
| `StartUp.Start` | internal/database/clickhouse.go:144-152 | migration and then recovery after a crash inside a transaction: once the migration completes, a reliable recovery succeeds exactly if every journaled table already had the columns the version expects, and then every one of them is the old table |
| `StartUp.Restore` | internal/database/clickhouse_transaction.go:112-145 | putting saved rows back is refused exactly when the column counts differ, after the recorded rows were deleted; otherwise it gives the old table, and an interrupted attempt can be repeated |
| `StartUp.StaysWider` | internal/database/clickhouse_schema.go:476-530 | a journaled table that was widened stays wider than its snapshot under every later version, so none can recover it |
| `SqlText.CountPlaceholders` | internal/database/clickhouse_sql.go:277-301 | the scan that skips doubled quotes and escapes counts exactly the question marks outside quotes |
| `SqlText.FindTopLevelKeyword` | internal/database/clickhouse_sql.go:239-275 | the first place where the keyword stands as a word outside quotes and parentheses, or none |
| `SqlText.SplitTopLevelList` | internal/database/clickhouse_sql.go:158-193 | the trimmed items between the commas outside quotes and parentheses |
| `SqlText.MatchingParenthesis` | internal/database/clickhouse_sql.go:128-156 | the parenthesis that closes the first one opened, or none |
| `SqlWhere.WhereClause` | internal/database/clickhouse_transaction.go:237-243 | the first top-level WHERE clause, trimmed, and its arguments, which bind it as it is bound in the statement |
| `SqlWhere.CutSplitsPlaceholders` | internal/database/clickhouse_transaction.go:237-243 | a cut outside quotes splits the placeholders exactly |
| `SqlWhere.ClauseBinds` | internal/database/clickhouse_transaction.go:215-244 | the trimmed clause has exactly the placeholders of the statement from WHERE on, each takes from the remaining arguments the one it takes in the statement, and there are as many as it needs |
| `SqlWhere.RebindKeepsPlaceholders` | internal/database/dialect_clickhouse.go:55-69 | rewriting UPDATE keeps the number of placeholders, for every query |
| `SqlWhere.RebindParts` | internal/database/dialect_clickhouse.go:55-69 | both statements are the same table and assignment texts in the same order, with words without placeholders around them |
| `RowKey.DecodeEncode` | internal/database/clickhouse_sql.go:115-126 | every list of nullable values can be read back from its key |
| `RowKey.KeysAreUnique` | internal/database/clickhouse_sql.go:115-126 | equal keys come from equal lists |
| `RowKey.Encode` | internal/database/clickhouse_sql.go:115-126 | the key is built value by value in order |
| `RowKey.MaterialisedKeyAgrees` | internal/database/clickhouse_schema.go:36-44 | the SQL expression of the `_renop_key` column evaluates to the key the undo log computes |
| `RowKey.KeyExpressionText` | internal/database/clickhouse_schema.go:36-44 | the emitted text of the key column is the rendering of that expression |
| `SqlInsert.InsertKeys` | internal/database/clickhouse_sql.go:22-104 | the scan returns the keys, or the error, that the specification of target, columns and source gives |
| `SqlInsert.InsertKeysAfterTarget` | internal/database/clickhouse_sql.go:30-51 | columns are found by their parentheses and the source is what follows |
| `SqlInsert.ExpressionRows` | internal/database/clickhouse_sql.go:45-68 | rows of a VALUES list or the list of a SELECT up to its WHERE |
| `SqlInsert.BindRow` | internal/database/clickhouse_sql.go:75-92 | arguments are consumed expression by expression and key columns take a bound argument or a literal |
| `SqlInsert.KeysOfRows` | internal/database/clickhouse_sql.go:69-104 | one key a row, in row order, with the arguments running on |
| `SqlPrint.InsertValuesKeys` | internal/database/clickhouse_sql.go:22-104 | for every printed INSERT ... VALUES, with any texts and any number of arguments: the keys of its rows if every key column can be read, else the error for the first that cannot, which shows a placeholder in its text or misses its argument |
| `SqlPrint.AlwaysWrittenIff` | internal/database/clickhouse_sql.go:22-104 | the scan finds the keys of the rows the statement writes, for every list of enough arguments, exactly if no text of a key column shows a placeholder and none is hidden before a placeholder of a key column |
| `SqlPrint.WrittenKeysIff` | internal/database/clickhouse_sql.go:22-104 | for given arguments it does exactly if every key column can be read and none has got another value |
| `SqlPrint.PlainValuesKeys` | internal/database/clickhouse_sql.go:22-104 | without backslashes and with all arguments they are |
| `SqlPrint.ArgumentsShift` | internal/database/clickhouse_sql.go:75-92 | the argument read for an expression is too far by the number of placeholders hidden in the texts before it |
| `SqlPrint.ShiftedKey` | internal/database/clickhouse_sql.go:75-92 | a text that hides one makes a later key column take the next argument without an error, or refuses it when there is none |
| `SqlPrint.InsertSelectKeys` | internal/database/clickhouse_sql.go:22-104 | the same for a printed INSERT ... SELECT; with a condition the scan of its list must end at the top level |
| `SqlPrint.ArgumentsAreBound` | internal/database/clickhouse_sql.go:75-92 | the argument taken for an expression is numbered by the placeholders in front of it in the whole statement, as long as the scan ends each expression outside quotes |
| `SqlPrint.BeforeIsPrinted` | internal/database/clickhouse_sql.go:22-104 | the text in front of an expression is a prefix of the printed statement, followed by that expression |
| `SqlPrint.SplitJoin` | internal/database/clickhouse_sql.go:158-193 | splitting undoes joining for closed, trimmed items |
| `SqlPrint.ParseShown` | internal/database/clickhouse_sql.go:195-204 | a printed literal is read back as its value |
| `SqlPrint.WhereIsFound` | internal/database/clickhouse_sql.go:239-275 | the printed WHERE is the one that is found exactly if the scan of the list ends at the top level |
| `SqlPrint.BackslashIsMisread` | internal/database/clickhouse_sql.go:277-301 | a text with a backslash in which the placeholder scan sees a placeholder inside the quotes |
| `UndoInsert.ScanDelivers` | internal/database/clickhouse_transaction.go:232-236 | for a printed INSERT with everything in place the keys found in its text are, one by one, those of the rows it stores, and together the keys of its mutation |
| `UndoInsert.StoredKey` | internal/database/clickhouse_schema.go:36-44 | the key column of a stored row evaluates to the key of the printed row |
| `UndoInsert.ValuesKeys` | internal/database/clickhouse_transaction.go:232-236 | from the text of an INSERT ... VALUES: what the undo log is given are the keys of the mutation |
| `UndoInsert.SelectKeys` | internal/database/clickhouse_transaction.go:232-236 | the same from an INSERT ... SELECT |
| `UndoInsert.ScannedInsertSafe` | internal/database/clickhouse.go:215-227 | once the scanned keys are recorded, the INSERT may run in whole or in part and the store recovers to the same tables |
| `TtlCache.AnswerIsFresh` | internal/database/cache.go:124-158 | over every interleaving: a hit or an own load is never older than a write whose invalidation had finished when the call began; a waiter's value is not, when it could have checked the generation |
| `TtlCache.StaleOnlyWhileWriting` | internal/database/cache.go:292-338 | over every interleaving: an entry older than the database exists only while a writer of its key is unfinished |
| `TtlCache.StepKeeps` | internal/database/cache.go:125-338 | every step of loaders, readers and writers keeps the invariant behind both |
| `TtlCache.StoreKeeps` | internal/database/cache.go:273-285 | a load stores only what it read after the last invalidation began |
| `TtlCache.RemoveKeeps` | internal/database/cache.go:292-338 | removing entries settles the write without leaving an older entry |
| `TtlCache.WaiterIsStale` | internal/database/cache.go:248-252 | a run in which a coalesced waiter is answered with a value older than its floor |
| `TtlCache.WaiterIsFreshIff` | internal/database/cache.go:248-252 | a caller that joins a load after its read is answered freshly exactly when that read was no older than its floor |
| `TtlCache.SameGenerationIsFresh` | internal/database/cache.go:248-285 | over every interleaving: if the generation is the one the load began with, its read is no older than any settled write of the key, so whoever joins it is answered freshly |
| `TtlCache.OtherKeyChangesGeneration` | internal/database/cache.go:248-285 | that check is not necessary: a run in which another key was invalidated and the waiter is answered freshly |
| `TtlCache.Shard.SetLocked` | internal/database/cache.go:198-228 | the new entry is stored, the bound holds, and only the entries that make room go: expired ones, else one that expires first |
| `FileCache.Replay` | internal/core/file_cache.go:87-226 | every run of stores, deletes and looks: an answer is the last value stored, a look right after a store that fits is answered, and the budget holds |
| `FileCache.FileByteCache.Set` | internal/core/file_cache.go:126-170 | a value that fits is stored and present within the budget, nothing else is added, nothing is evicted when all fits, and an oversized value is ignored |
| `FileCache.FileByteCache.Delete` | internal/core/file_cache.go:173-187 | exactly that key is gone and the byte count stays the sum of the entries |
| `FileCache.FileByteCache.Get` | internal/core/file_cache.go:87-121 | a hit is the last value stored under the key |
| `FileCache.FileByteCache.TrimToMax` | internal/core/file_cache.go:207-226 | trimming terminates, ends within the budget and keeps the protected entry |
| `FileCache.FileByteCache.EvictOne` | internal/core/file_cache.go:229-257 | terminates; removes the first queued live key other than the protected one if there is one, and nothing otherwise; live keys stay queued |
| `FileCache.FileByteCache.CompactOrder` | internal/core/file_cache.go:259-290 | the queue keeps its live keys in order, or is left alone while it is short |
| `FileCache.CompactedCovers` | internal/core/file_cache.go:259-290 | compaction keeps every live key queued and bounds or removes the stale ones |
| `FileCache.Rotated` | internal/core/file_cache.go:230-239 | passing over the head, queued again if protected, brings the victim one place closer |
| `CargoTables.PublishThenRollBack` | internal/database/cargo.go:438-605 | a publication taken back with the earlier package row restores packages, versions and members, for new and existing packages |
| `CargoRegistry.Registry.RecordPublication` | internal/database/cargo.go:438-544 | succeeds exactly when allowed, and writes the package, the version and, for a new package, its owner |
| `CargoRegistry.Registry.RollBackPublicationReview` | internal/database/cargo.go:547-605 | succeeds exactly when the version exists and, for a new package, was its only one |
| `CargoRegistry.Registry.SetVersionYanked` | internal/database/cargo.go:688-733 | who may yank and unyank, and what becomes of both flags |
| `CargoRegistry.Registry.SetPackageArchived` | internal/database/cargo.go:780-827 | who may archive and restore, and what becomes of the package and its versions |
| `CargoRegistry.Registry.DeletePackage` | internal/database/cargo.go:829-858 | the package goes with its versions, members and invitations; other packages keep their owners |
| `CargoRegistry.Registry.DeleteVersion` | internal/database/cargo.go:735-778 | one version goes, and the package stays mirrored exactly while one of the others is |
| `CargoRegistry.Registry.DeleteRepository` | internal/database/cargo.go:860-882 | every package of the repository goes with its versions, members and invitations, and nothing of another one |
| `CargoTables.ArchiveFlags` | internal/database/cargo.go:780-827 | admin-yanked versions are yanked, admin-archived packages archived, archive-yanked versions yanked in an archived package, and archived packages have only yanked versions |
| `CargoTables.RestoreUndoesArchive` | internal/database/cargo.go:808-816 | after a restore a version is yanked exactly when it was before archiving or is admin-yanked now |
| `CargoTables.ArchiveGoesOn` | internal/database/cargo.go:688-827 | yanking, archiving again and deleting versions keep what the restore needs |
| `CargoRegistry.ArchiveAndRestore` | internal/database/cargo.go:688-827 | the same over a whole run between archive and restore, publications and member changes included |
| `CargoRegistry.Run` | internal/database/cargo.go:438-1321 | over every run a package has at most one owner and keeps one from the first until it is deleted; a version keeps all but its yank flags until it is deleted; a package keeps its texts until the next publication |
| `CargoRegistry.PublishAndRun` | internal/database/cargo.go:438-544 | after a publication and any such run readers see the published version and texts, an empty address having kept the earlier one |
| `CargoRegistry.Registry.ForceAddMembers` | internal/database/cargo.go:1047-1140 | succeeds exactly when allowed, adds each named user once, and moves ownership only for level four |
| `CargoRegistry.Registry.CreateInvitations` | internal/database/cargo.go:918-1045 | succeeds exactly when the batch is for one package and inviter and each offer in turn is allowed, new, and not blocked by an earlier invitation that stands; no member changes, and a recipient has one invitation |
| `CargoRegistry.PlaceEach` | internal/database/cargo.go:981-1040 | for different recipients a batch is accepted exactly if each offer would be by itself, with identifiers of its own |
| `CargoRegistry.Registry.RespondInvitation` | internal/database/cargo.go:1142-1240 | succeeds exactly when the invitation stands and its inviter may still give the level; ownership moves only from an inviting owner |
| `CargoRegistry.Registry.SetMemberLevel` | internal/database/cargo.go:1242-1321 | succeeds exactly when allowed; ownership moves only by the owner or an administrator |
| `CargoTables.LevelSetOwners` | internal/database/cargo.go:1292-1316 | setting a level never makes a second owner and never leaves a package without its owner |
| `CargoTables.AcceptedOwners` | internal/database/cargo.go:1201-1212 | an accepted level-four invitation moves ownership from the inviting owner |
| `CargoTables.ForceAddedOwners` | internal/database/cargo.go:1107-1117 | a forced addition keeps the owner or replaces it by the one added |
| `CargoTables.ExchangeKeepsLevels` | internal/database/cargo.go:1298-1316 | a transfer by the owner preserves the multiset of levels |
| `Caddyfile.BuildCaddyfile` | internal/caddy/config.go:85-142 | the byte-offset splice builds the file that splicing lines gives, with the same errors |
| `Caddyfile.BuildTwice` | internal/caddy/config.go:85-142 | building again for the host equals building once with the new port, exactly unless the file had no block, no CRLF and a final carriage return |
| `Caddyfile.SecondBuildDiffers` | internal/caddy/config.go:93-141 | a file on which the second build differs |
| `Caddyfile.MarkersOnce` | internal/caddy/config.go:110-137 | a built file has one begin and one end marker line |
| `Caddyfile.SpanIsReplaced` | internal/caddy/config.go:121-130 | where there is a block, it alone is replaced |
| `Caddyfile.OutsideIsKept` | internal/caddy/config.go:121-141 | with one kind of line ending every byte outside the block is kept |
| `Caddyfile.UniqueLineOffset` | internal/caddy/config.go:197-211 | the byte offset of the only line that equals the marker, none, or repeated |
| `Caddyfile.NormDenorm` | internal/caddy/config.go:97-140 | restoring CRLF and normalising again gives the text back |
| `IndexedMap.HitIsCurrent` | internal/cache/value.go:76-88 | over every interleaving, with a remote store that loses or mixes up values: a hit returns what a plain map holds at the recheck |
| `IndexedMap.SameKeys` | internal/cache/value.go:73 | the local references are those of the plain map |
| `IndexedMap.WrittenOnce` | internal/cache/remote.go:168-178 | what is written under a remote key is never replaced |
| `IndexedMap.StepKeeps` | internal/cache/value.go:76-112 | every step keeps that a reference names the value last stored |
| `IndexedMap.FetchedMayBeOld` | internal/cache/value.go:82-86 | a run in which the fetched value is outdated before the recheck |
| `IndexedMap.DeleteBlobs` | internal/cache/remote.go:226-247 | every key is sent to its own remote once, in order, in batches of at most 128 |
| `IndexedMap.Local.DeleteMatching` | internal/cache/value.go:121-137 | selected references only, no more than a positive limit, all of them when the limit is not reached, and their blobs are what is deleted |
| `AccountEmails.Reserve` | internal/database/account_emails.go:23-113 | succeeds exactly when every address is the account's own or verified and free and the limit holds; otherwise nothing changes |
| `AccountEmails.ReserveKeeps` | internal/database/account_emails.go:95-112 | a reservation keeps primary addresses owned and every account within its limit |
| `AccountEmails.NewIsVerified` | internal/database/account_emails.go:80-82 | an address that a reservation adds has a verified proof |
| `AccountEmails.Accounts.AddEmails` | internal/database/account_emails.go:23-113 | others' addresses are untouched and only verified ones are new |
| `AccountEmails.Accounts.UpdatePrimary` | internal/database/account_security.go:329-354 | the primary address becomes the account's own, unretained ones go, or nothing changes |
| `AccountEmails.Accounts.DeleteAlias` | internal/database/account_emails.go:175-207 | any own address but the primary one is removed, and only it |
| `AccountEmails.Accounts.Retire` | internal/database/tokens.go:450-680 | succeeds exactly for an eligible account that is not retired; its addresses stay, and count as released if there are none |
| `AccountEmails.Accounts.ReleaseRetired` | internal/database/account_retirement.go:136-180 | a retired account gives up its primary and every address, and no other account does |
| `AccountEmails.Run` | internal/database/account_emails.go:23-207 | over every run: an address stays with its account unless that account frees it, whoever has gained one has proved it, and a retired account keeps its addresses until their release and then owns none |
| `AccountEmails.Migrate` | internal/database/account_emails.go:115-155 | page by page: existing rows are kept, conflicts change nothing, and on completion every primary address is owned by its account |

## Left out

- Transactions: identifiers are taken to pass `validClickHouseIdentifier`; an UPDATE is taken to leave `_renop_key` unchanged, as no statement of the repository changes a key column.
- Transactions: a statement on the journal or on a snapshot that is applied but reported as failed while the process goes on is not modelled; one on rows or key records may then be applied in any part, as may any statement before a crash.
- Transactions: starting another transaction after a rollback that failed; the code promises nothing there.
- UndoLog.Transaction.Commit: a leaked table whose restore was itself stopped is only known to be a mix of its states before, between and after the two statements of the restore.
- UndoLog.Transaction.Exec: a failed statement is not promised to have changed nothing, because the code does not undo a mutation that reports an error after part of its work; the rollback does.
- StartUp.Start: one journaled transaction over tables with distinct column names; orphaned snapshots and the journal rows themselves are the matter of UndoLog, and a default of an added column plays no part because the insert is refused.
- RowKey.MaterialisedKeyAgrees: key columns are nullable ASCII texts; what toString makes of numbers and dates, and lengths in bytes of other text, are not modelled.
- SchemaMigration.Store.Migrate: it is called as `initializeClickHouseSchema` calls it, after recovery has cleared the temporary and backup tables. Column types and their conversion are not modelled.
- Reading the existing tables and columns from `system.tables` is exact; table names of different schemas do not collide.
- SQL text is ASCII. The regular expression for the mutation target is modelled by its search, not as a regular expression engine.
- SqlPrint.InsertValuesKeys: key columns are given placeholders, NULL or quoted texts; a number or an expression in one is evaluated by the database and has no value in the model. Other columns take any closed text.
- SqlPrint.WrittenKeysIff: a quoted text is written as standard SQL reads it, with doubled quotes and no escapes. The server takes a backslash in a literal as an escape, so for a text with one the result is about the placeholder scan and the literal parser, which disagree with each other, and not about what the server stores.
- SqlPrint.AlwaysWrittenIff: the same holds of the value it calls written.
- SqlPrint.ShiftedKey: the same; it shows that the two scanners of one statement disagree.
- UndoInsert.StoredKey: columns given as code are evaluated by the server; none of them is a key column.
- Caches: time is left to the steps (an entry may expire or be evicted at any step); hashing is a parameter. `TTLCache.Set`, which checks no generation, gives no freshness and is not a step of the model; writers are taken to invalidate after they commit.
- TtlCache: the sections under a shard lock are steps on values rather than methods of shared objects, since any number of them interleave; that a caller may alias a returned value is not captured.
- `FileByteCache` is modelled in memory mode and called sequentially; its external mode follows `IndexedMap`.
- Encryption is ideal and JSON round trips; pool sizes, timeouts and the retry clock only decide which remote calls fail.
- CargoRegistry.Run: packages bound to a global team, the removal of members and accounts, mirrored versions and the rollback of a review are not among the operations of a run; a mirrored version or a rollback may bring rows that do not fit the flags of an archived package.
- Cargo messages are kept only as far as invitations need them; input cleaning and account locks are left out, and a resource lock is one flag.
- BuildCaddyfile starts from the normalised hostname; `NormalizeHostname`, the YAML configuration and the installer are not modelled.
- Email addresses are normalised before they enter the model; sessions, codes and security timestamps are left out.
- HTTP handlers, configuration, audit logs, OAuth, mail and the frontend.
