# dorm: verified models

dorm is a Go ORM for PostgreSQL with migrations, seeding, access scopes and optimistic locking. This project models six of its
machines in Dafny and proves what they promise. Nothing was executed: the results are theorems about the model.

| module | models |
|---|---|
| Wrappers, Text, Sorting | optional and failing results, Go strings, decimal numerals, the library's stable sort |
| Transactions, Handles | PostgreSQL's savepoint machine, database handles with their `closed` flags, nested transactions, batch writes |
| SchemaModel, SchemaDiff, DiffSemantics, ForeignKeys, DiffInverse | schemas, `Compare`, a reference meaning of the nine operations, foreign keys in sorted lists, the inverse diff |
| MigrationRunner, Migrations, Deployment | `Run` and `Revert` over a registry, file names, `Generate` and `Write`, replaying and resuming history |
| SeedOrder, SeedSync, SecondSync | the seeder registry and its schedule, the record reconciler, running it again |
| OptimisticLock | the versioned row and any number of clients |
| SqlText, Binding | quoting and rendering, clause-by-clause placeholders |
| SqlReader, StatementText, BoundStatements | reading statements back: words and lists outside quotes and parentheses, SELECT and UPDATE, what was bound where |
| AccessScope, ScopeMeaning, WhereText | policies, scope predicates, validated writes, visible rows, all of it field by field, joined WHERE clauses |
| SnapshotHeap, SnapshotEdits, SnapshotCache | snapshot objects on the heap, cloning and sorting in place, what holders do to them, the fingerprinted cache |
| TypeWalk | embedded struct discovery and column lookup |

## Where the code says something else

- A statement error that a callback ignores aborts the PostgreSQL transaction. RELEASE then fails, the nested handle is already
  closed, and the outer block cannot recover. "Restore the entry state on failure" is true of a block and of all blocks it comes
  to exactly if none of them returns nil after going on past a rejected statement of its own
  (`Transactions.PlainlyReadIffHonest`), a condition on the plain run alone. The final rows can be the plain ones for other blocks
  too; `Transactions.OutcomeIsPlainIffStrict` says when, in terms of which errors the real run would have to hear.
  `Handles.DB.Transaction` covers every tree with a reference that also has an aborted state.
- Migration names have at least four digits; from the 10000th migration on file order is no longer generation order.
- The inverse of a diff restores the schema only if the diff drops no table and replaces no index or constraint of the same name.
- A foreign key can be created before the table or the column it refers to, since operations are sorted by table name;
  `ForeignKeys.EveryStepFitsIff` says exactly when a list can run.
- `joinSorted` prints a list with blanks between entries, so column names with blanks are ambiguous, and so are no names and one
  empty name.
- Update does not check scope columns: a model with another company's id in its scope field moves the caller's row there
  (`AccessScope.UpdatedRowStaysIff`).
- Update stamps a `deleted_at` column whose field is zero, as it does `updated_at`: updating a live row through a model that has
  such a field soft-deletes the row (`ScopeMeaning.UpdateDeletesIff`). SoftDelete demands a user for a `deleted_by` column but
  never writes it.
- The system policy is documented to disable access policies; it also switches off the collection of values, so creating and
  updating always fail under it.
- A second identical seed run can fail: a unique constraint can refuse it when several records share a key, because earlier
  records are written again, and an update that has to record a user fails without one. `SecondSync.SecondSyncIff` says exactly
  when it succeeds; with one record per key the constraints cannot refuse it.
- WHERE clauses are joined by a bare AND, which binds tighter than an OR inside a clause. A scope condition restricts Find and
  UpdateWhere exactly if no clause of the caller has a top-level OR (`WhereText.ScopeRestrictsIff`); with one, rows outside the
  caller's scopes are reached. AccessScope takes each clause as one closed condition.
- `Schema.Clone` shares lists of enum values, and copies the element type of an array type one level deep: the metadata map of an
  element type and the element types inside it stay shared. The snapshot cache is right for callers that leave those alone
  (`SnapshotCache.Client.Run`) and wrong for those that write to them (`SnapshotCache.LoadAfterSharedWrite`).
- `ToSnakeCase` is not idempotent on a name with a capital that is its own lower case right behind an ordinary capital, or with
  a capital whose lower case is itself changed by a second pass.

## Reading the contracts

Operations that the program runs step by step are methods over classes or loops; each is proved against a function or predicate
of its inputs or its old state, and the theorems are about those. The database appears as the rows of the tables a statement
touches. Time, generated ids, fingerprints, the JSON layer, the Unicode tables and database constraints are parameters.

## Model

| member | source | states |
|---|---|---|
| `Transactions.SavepointRoundTrip` | orm/transaction.go:193-197 | whatever happens after a SAVEPOINT, ROLLBACK TO its name brings back exactly the session behind it, can be repeated and ends the failed state; RELEASE keeps the rows and forgets the name, but is refused in the failed state |
| `Transactions.Counter.NextSavepointName` | orm/transaction.go:20-24 | the global 64-bit counter, modulo wrap-around |
| `Transactions.SavepointNamesDiffer` | orm/transaction.go:22-24 | two names drawn less than 2^64 draws apart differ |
| `Transactions.ClosedStaysSilent` | orm/transaction.go:293-320 | every later Begin, Commit, Rollback, exec on a closed handle answers TransactionClosed, sends nothing and leaves the session alone |
| `Transactions.FinishesAtMostOnce` | orm/transaction.go:220-272 | in any sequence of calls on one handle, whatever others do to the session in between, at most one commit, release or rollback is ever sent, whether or not it succeeded |
| `Transactions.PlainlyReadIffHonest` | orm/transaction.go:145-176 | plain recursive restore-on-failure is true of a block and of every block it comes to if and only if none of them returns nil after going on past a rejected statement of its own |
| `Transactions.OutcomeIsPlainIff` | orm/transaction.go:145-176 | when the nested blocks a block comes to are of that kind, its rows and outcome are the plain ones if and only if the block is too |
| `Transactions.RunIsStrictPlain` | orm/transaction.go:145-176 | every tree, also with swallowed errors, does what plain restore-on-failure says of the tree in which rejected statements and nested blocks left aborted are no longer ignored |
| `Transactions.OutcomeIsPlainIffStrict` | orm/transaction.go:145-176 | so for every tree the rows and outcome are the plain ones if and only if hearing those errors would not change the plain ones |
| `Transactions.DisciplinedIsPlain` | orm/transaction.go:145-176 | in particular they are for every tree that ignores no statement's own error; nested errors may be swallowed freely |
| `Transactions.SwallowedErrorPoisonsOuter` | orm/transaction.go:231-236 | a concrete tree for which plain restore-on-failure is false: an ignored statement error makes RELEASE fail inside the aborted transaction and takes the outer block down |
| `Transactions.AbortedGoesNowhere` | orm/transaction.go:192-196 | in an aborted transaction nothing is executed and every step fails |
| `Transactions.PoisonedExactly` | orm/transaction.go:145-176 | a callback's steps end aborted and yet without an error if and only if some step breaks the transaction and it and all later steps are ignored |
| `Transactions.NestedPoisonedExactly` | orm/transaction.go:220-245 | a nested block leaves its enclosing transaction aborted if and only if that happens and the callback returns nil |
| `Transactions.BlockErrIffFails` | orm/transaction.go:145-176 | a block returns an error exactly when its outcome is a failure |
| `Transactions.ErrorIsRaised` | orm/transaction.go:145-176 | a block returns exactly the error raised at some place of its tree, passed up unchanged through every enclosing block: a refused statement or SAVEPOINT, a callback's own, a refused RELEASE or COMMIT, and never one of a rollback |
| `Handles.OwnSavepointFound` | orm/transaction.go:193-198 | a handle's savepoint name finds the handle's own savepoint, whatever savepoints of finished nested handles were left above it |
| `Handles.StackGrownTransitive` | orm/transaction.go:178-218 | the leftovers of successive nested transactions are fresh names above the entry stack |
| `Handles.DB.Begin` | orm/transaction.go:178-218 | root: a new transaction, or an error when the pool has no connection; nested: one fresh name and one SAVEPOINT, a new handle on the same connection; closed or failing: no handle |
| `Handles.DB.Commit` | orm/transaction.go:220-245 | COMMIT or RELEASE by the handle's own savepoint, the handle closes either way, and rows reach the store only on a successful top-level commit |
| `Handles.DB.Rollback` | orm/transaction.go:247-272 | ROLLBACK or ROLLBACK TO by the handle's own savepoint, the handle closes either way |
| `Handles.DB.ExecContext` | orm/orm.go:1755-1758 | a statement on a closed handle never reaches the connection; on an open one it has its effect or aborts the transaction |
| `Handles.DB.Transaction` | orm/transaction.go:145-176 | for every tree of nested blocks, on a root handle and on a handle inside a transaction, the committed store, the working rows and which error is returned are those of the recursive reference in which a failed block restores its entry state and its error is passed on as it is |
| `Handles.DB.Finish` | orm/transaction.go:165-175 | the end of Transaction on any handle: whenever the rollback is served the callback's own error is returned; both are joined exactly when the rollback fails too; without a callback error the commit's answer |
| `Handles.DB.BatchSizeLimit` | orm/orm.go:1638-1652 | the chunk size is positive, one of the total and the configured size, and exceeds neither |
| `Handles.DB.BatchWrite` | orm/batch.go:30-70 | items are visited 0..n-1 once each, or 0..i up to the first failure, for every batch size; on failure the store, or the enclosing transaction, is as before the batch, and the error is the failing item's under its index |
| `Handles.RunItemsSplit` | orm/batch.go:53-65 | running a list of items is running a prefix and then the rest, with failure indices shifted |
| `SeedOrder.Registry.Register` | seed/seed.go:88-102 | later seeders replace earlier ones of the same name, nameless ones are skipped, and the order of first registration is kept |
| `SeedOrder.BlankIffTrimmedAway` | seed/seed.go:92-94 | a name counts as nameless exactly if trimming leaves nothing of it |
| `SeedOrder.Registry.ResolveSeederOrder` | seed/seed.go:232-279 | fails with an unknown dependency iff one is unregistered, with a cycle iff all are known and the dependency graph has one; otherwise returns every seeder once, dependencies first, in the order that always takes the least ready name |
| `SeedOrder.Registry.CountEdges` | seed/seed.go:242-259 | in-degrees count dependency entries with multiplicity, duplicates included, for every iteration order of the map |
| `SeedOrder.Schedule` | seed/seed.go:260-274 | the queue loop produces the greedy least order from the in-degrees |
| `SeedOrder.Relax` | seed/seed.go:268-273 | taking a seeder off the queue leaves exactly the newly ready seeders added and every other count reduced by its number of entries |
| `SeedOrder.GreedyIsLeast` | seed/seed.go:244-274 | among all topological orders the greedy one is first in dictionary order, hence independent of registration and map order |
| `SeedOrder.CompleteIffAcyclic` | seed/seed.go:275-278 | the schedule takes every seeder iff no closed walk of dependencies exists |
| `SeedOrder.CompleteScheduleIsTopological` | seed/seed.go:260-279 | a schedule that takes everyone puts every dependency before its dependents |
| `SeedOrder.TopologicalSchedules` | seed/seed.go:260-279 | conversely every topological order is a possible schedule |
| `SeedOrder.StuckHasCycle` | seed/seed.go:275-277 | seeders that block each other contain a dependency cycle |
| `SeedOrder.OrderedHasNoCycle` | seed/seed.go:275-278 | a graph with a topological order has no cycle |
| `SeedSync.BuildSeedFilters` | seed/seed.go:368-381 | one equality per key field, or the error of the first key that is missing or zero |
| `SeedSync.Session.Find` | seed/seed.go:383-391 | the first rows, up to the limit, that satisfy all filters |
| `SeedSync.InsertIsPut` | orm/orm.go:294-327 | apart from audit columns, creating an absent record is the reference put: one more row, holding the record |
| `SeedSync.InsertStamps` | orm/orm.go:1205-1277 | the inserted row is appended; its creation and update time are the time of the insert, its creator, updater and deleter the session's user, everything else the record's |
| `SeedSync.UpdateKeepsCreation` | seed/seed.go:429-462 | the row an update finds takes the record's plain values and the time and user of the update, and keeps its key, creation time, creator and deleter; rows with other keys do not change |
| `SeedSync.Session.SyncOne` | seed/seed.go:333-366 | insert, update, skip or conflict, by the number of rows found and their comparison |
| `SeedSync.Session.Sync` | seed/seed.go:176-230 | records one after the other until one fails, with the counters |
| `SeedSync.AttemptIsPut` | seed/seed.go:333-366 | apart from audit columns, inserting, updating and skipping are all the same put of the record at its key; inserted exactly when absent, never when ambiguous |
| `SecondSync.UpdateAnswers` | seed/seed.go:333-366 | with one row of the record's key: skipped exactly if it says the same, else updated unless an update misses its user, sets nothing or is refused by the constraints |
| `SecondSync.InsertAnswers` | seed/seed.go:333-366 | with none: inserted unless a user is missing or the constraints refuse |
| `SecondSync.TwoAreAmbiguous` | seed/seed.go:333-366 | with two: a conflict |
| `SeedSync.SyncReconciles` | seed/seed.go:176-230 | after success there is exactly one row per desired key, and it holds the non-key-identity, non-audit values of the last record with that key |
| `SeedSync.SyncIsPutAll` | seed/seed.go:176-230 | a successful Sync is the one-record put applied to every record in turn; inserted + updated + skipped equals the number of records and the table grows by exactly the inserted count |
| `SeedSync.SyncKeepsTheRest` | seed/seed.go:176-230 | a row whose key no record has is not written, and no row changes its primary key |
| `SecondSync.SecondSyncInsertsNothing` | seed/seed.go:333-366 | a second identical Sync that succeeds inserts nothing and changes audit columns only, whoever runs it |
| `SecondSync.SecondSyncIff` | seed/seed.go:333-366 | a second identical Sync, under constraints that do not look at audit columns, succeeds if and only if every record's row says the same or can be updated, by a known user where one is recorded, and the constraints accept every table on the way when the records are put once more |
| `SecondSync.StillServed` | seed/seed.go:333-366 | whether a record's row says the same or can be updated is not changed by the records before it |
| `SecondSync.SecondSyncSucceeds` | seed/seed.go:333-366 | with one record per key the constraints refuse nothing, so that rows say the same or can be updated is all it takes; they can where updates find their user and the table has a column every update sets |
| `SecondSync.SecondSyncCanBeRefused` | seed/seed.go:333-366 | concrete records, two with one key, whose second Sync a unique constraint refuses |
| `SeedSync.FailedSyncStoppedAt` | seed/seed.go:199-213 | a failing Sync has reconciled exactly the records before the failing one, whose error it returns |
| `SeedSync.OthersUntouched` | seed/seed.go:333-366 | rows no record asks for keep even their audit columns, also when Sync fails |
| `SchemaModel.JoinSortedIsMultiset` | schema/diff.go:222-226 | on names without blanks joinSorted equality is equality of column lists as multisets, except that the empty list and the list of one empty name look alike |
| `SchemaModel.JoinSortedConfusesBlanks` | schema/diff.go:222-226 | a concrete pair of lists, one with a blank in a name, that joinSorted cannot tell apart |
| `SchemaModel.ByNameIsLast` | schema/diff.go:181-211 | an entry that no later one shares its name with is the one the name map holds |
| `SchemaModel.SameNamesIff` | schema/diff.go:222-226 | for any two lists joinSorted equality is having the same names, as JoinSortedIsMultiset says |
| `SchemaModel.IndexesEqualIff` | schema/diff.go:155-165 | two indexes compare equal exactly if their records are equal but for metadata and the order of columns |
| `SchemaModel.ConstraintsEqualIff` | schema/diff.go:167-179 | two constraints compare equal exactly if their records are equal but for metadata and the order of columns on either side |
| `SchemaModel.NameMap` | schema/diff.go:181-211 | the name maps hold the last entry of each name |
| `SchemaModel.SortKeepsCatalog` | schema/types.go:272-284 | Schema.Sort does not change what a schema says, also with repeated names |
| `SchemaModel.SortSchemaForgetsOrder` | schema/types.go:272-284 | schemas with unique names that differ in order only sort to the same schema |
| `SchemaDiff.KindsByRank` | schema/diff.go:12-22 | the string order of the nine kinds: add, alter, create, drop |
| `SchemaDiff.SortedKeys` | schema/diff.go:213-220 | every key once, ascending |
| `SchemaDiff.CompareTable` | schema/diff.go:86-137 | exactly the operations needed between two tables of one name |
| `SchemaDiff.Compare` | schema/diff.go:40-74 | fails iff a schema is nil; otherwise the list holds exactly the needed operations, sorted by table, kind and name |
| `SchemaDiff.DiffUnique` | schema/diff.go:67-72 | that specification leaves one list only |
| `DiffSemantics.EquivalenceRelation` | schema/diff.go:139-179 | not being told apart by Compare is an equivalence |
| `DiffSemantics.ApplyAllKeepsEquivalence` | schema/diff.go:139-179 | lists of operations lead schemas Compare cannot tell apart to schemas it cannot tell apart |
| `DiffSemantics.PatchReachesExpected` | schema/diff.go:40-74 | applying Compare(E, A) to any schema equivalent to A gives one equivalent to E |
| `DiffSemantics.RedoneDiff` | schema/diff.go:40-74 | applying Compare(E, A) once more to what it led to leaves that as it is, up to equivalence |
| `DiffSemantics.EmptyIffEquivalent` | schema/diff.go:38-74 | the list is empty exactly for equivalent schemas |
| `DiffSemantics.EquivalentIffAlike` | schema/diff.go:139-179 | schemas Compare cannot tell apart are those with the same tables, columns, indexes and constraints by name, namesakes equal as records but for what the source ignores |
| `DiffSemantics.EmptyIffAlike` | schema/diff.go:40-74 | so the list is empty exactly for two such schemas |
| `DiffSemantics.ChangedIffNotAlike` | schema/diff.go:86-137 | a column on both sides gets one alter_column, an index or constraint a create operation, exactly if the two records differ in more than that |
| `DiffSemantics.CompareForgetsOrder` | schema/diff.go:44-47 | the list does not depend on the order of tables, columns, indexes or constraints |
| `DiffSemantics.PrefixState` | schema/diff.go:67-72 | after any prefix of the list each slot holds the expected entry iff its operation was in the prefix |
| `DiffSemantics.EveryStepFits` | schema/diff.go:12-72 | at every prefix the next create_table, create_index, create_constraint, alter or drop finds the columns and objects of its table it needs, for a well-formed expected schema |
| `ForeignKeys.ReferencedTableThere` | schema/diff.go:67-72 | the table a foreign key refers to exists at its turn if and only if it stays, or is created and sorts first, or is dropped and sorts later; for keys of new tables as well |
| `ForeignKeys.ReferencedColumnThere` | schema/diff.go:67-72 | the same for each referenced column, added or dropped by the same list |
| `ForeignKeys.KeyFitsIff` | dialect/postgres/postgres.go:157-187 | a foreign key, in create_constraint or inside create_table, finds its table and all its columns if and only if the names sort that way; a new table may refer to itself |
| `ForeignKeys.EveryStepFitsIff` | schema/diff.go:67-72 | the whole list can run, foreign keys included, if and only if that holds of every key it adds |
| `ForeignKeys.NewTableRefersAhead` | dialect/postgres/postgres.go:172-180 | a concrete pair of schemas: create_table orders with a key to users comes before create_table users |
| `ForeignKeys.NewColumnReferredAhead` | schema/diff.go:67-72 | a concrete pair of schemas: the key of table a to a new column of table z is created before the column |
| `DiffSemantics.TargetNotDone` | schema/diff.go:67-72 | no slot is written twice |
| `DiffInverse.InvertDiff` | migrate/migrate.go:228-257 | the backwards loop |
| `DiffInverse.InverseRestoresIffReversible` | migrate/migrate.go:228-257 | applying the inverse after the diff restores the schema exactly, iff the diff drops no table and replaces no index or constraint of the same name |
| `DiffInverse.InverseRestoresEquivalentIff` | migrate/migrate.go:228-257 | from any schema Compare cannot tell from the old one, diff and inverse lead back to one it cannot tell from it, under the same condition |
| `DiffInverse.SuffixUndone` | migrate/migrate.go:228-257 | the inverse of any suffix of a reversible diff undoes that suffix |
| `DiffInverse.InvertTwice` | migrate/migrate.go:228-257 | without table operations inverting twice gives the list back |
| `DiffInverse.InverseIsReverseDiff` | migrate/migrate.go:228-257 | without table operations the inverse of a reversible Compare(E, A) is a permutation of Compare(A, E) |
| `MigrationRunner.Run` | migrate/migrate.go:137-178 | the unapplied files run in name order; a run stopped at any exec or record step leaves the first files applied and recorded, the registry a prefix, at most one file executed and unrecorded |
| `MigrationRunner.Revert` | migrate/migrate.go:180-204 | the down file runs and the record goes; missing name or file and a failing exec change nothing, a failing removal leaves the migration reverted but recorded |
| `Migrations.MigrationNamesDiffer` | migrate/migrate.go:222-226 | different generations have different names, also beyond 9999 |
| `Migrations.NameOrderIffBounded` | migrate/migrate.go:222-226 | name order is generation order iff there are at most 9999 migrations |
| `Migrations.SortedListingIsGenerationOrder` | migrate/migrate.go:155-159 | the sorted listing is the files in generation order |
| `Migrations.Service.Generate` | migrate/migrate.go:46-101 | the diff from the snapshot to the models and its inverse; no name iff nothing changed; fails only on a list the dialect does not render |
| `Migrations.ValidSchemaMeans` | schema/types.go:286-317 | the schemas a snapshot can be written from: table names, and column names within a table, present and different |
| `Migrations.Service.Write` | migrate/migrate.go:103-135 | both files, then the sorted snapshot, up to the first write that fails; an invalid schema leaves the files but not the snapshot |
| `Migrations.Service.GenerateAndWrite` | migrate/migrate.go:46-135 | the directory stays a history: one file per generation with its inverse, whose replay gives the snapshot's schema |
| `Deployment.PendingAfterPrefix` | migrate/migrate.go:160-164 | with the first m generations recorded, exactly the later ones are pending, in order |
| `Deployment.Deploy` | migrate/migrate.go:137-178 | a database that records the first m of at most 9999 generations, with the next one executed or not, up to equivalence: however a run stops, it leaves such a database with more recorded; a finished run gives the last model, a further run does nothing |
| `Deployment.DeployAgain` | migrate/migrate.go:137-178 | a run stopped anywhere, also between executing a file and recording it, followed by one that is not stopped, reaches the last model with every file recorded |
| `Deployment.DevelopAndDeploy` | migrate/migrate.go:46-178 | for any sequence of valid models that makes at most 9999 migrations, generated and written in turn, one run on an empty database ends in a schema equivalent to the last model |
| `Deployment.RunThenRevertLast` | migrate/migrate.go:137-204 | running the last migration and reverting it restores the registry, and the schema up to equivalence if and only if the diff was reversible; exactly, if it was exactly the previous schema |
| `OptimisticLock.TableRow.ExecReturning` | orm/orm.go:1940-1999 | the guarded UPDATE: one row iff the base version is current, then version + 1; an error at the end of bigint |
| `OptimisticLock.Model.Update` | orm/orm.go:366-449 | conflict iff no row was updated; on success the model's version is refreshed from RETURNING, narrowed to the Go field |
| `OptimisticLock.NoLostUpdate` | orm/orm.go:366-449 | after any interleaving of any number of clients the version is 1 plus the number of successes, the k-th success was based on version k, no two share a base, and the data is the successful edits applied in turn |
| `OptimisticLock.FreshUpdateSucceedsIff` | orm/orm.go:1378-1397 | an update right after a load succeeds iff the stored version survives the Go field type and is not the last bigint |
| `OptimisticLock.SavedCopyIsStored` | orm/orm.go:1975-1983 | after a successful save the client's copy holds the stored data, and its version is the stored one iff that fits the field; after a failed one its version is as before |
| `OptimisticLock.SavesInARow` | orm/orm.go:366-449 | of any number of saves after one load, nobody else in between, exactly as many succeed as the field and bigint have room for, each based on the version the one before it left, and the stored data is those edits applied in turn |
| `OptimisticLock.FitsIff` | orm/orm.go:1172-1192 | when a version survives a signed or unsigned field of a given width |
| `OptimisticLock.SecondSaverConflicts` | orm/orm.go:442-448 | of two clients that loaded the same version at most one save succeeds |
| `SqlText.QuoteLexesBackIff` | dialect/postgres/postgres.go:37-39 | a quoted identifier followed by a text lexes back to exactly both iff the text does not start with a double quote |
| `SqlText.ListLexesBack` | dialect/postgres/postgres.go:421-427 | a quoted list is recovered entry by entry |
| `SqlText.RenderInsert` | dialect/postgres/postgres.go:368-388 | the INSERT text, and the errors for an empty table or no columns |
| `SqlText.InsertParsesBack` | dialect/postgres/postgres.go:368-388 | table, columns and RETURNING list are recovered exactly from every rendered INSERT, for any names |
| `StatementText.SelectReadsBack` | dialect/postgres/postgres.go:322-366 | table, DISTINCT, columns, joins, WHERE, GROUP BY, HAVING, ORDER BY, LIMIT and OFFSET are recovered exactly from every rendered SELECT whose fragments hold no keyword outside quotes and parentheses |
| `StatementText.UpdateReadsBack` | dialect/postgres/postgres.go:390-405 | table, SET list, WHERE list and RETURNING are recovered exactly from every rendered UPDATE of such fragments |
| `Binding.BindPlaceholders` | dialect/placeholders.go:6-22 | the whole-statement binding: each mark becomes the next numbered placeholder |
| `Binding.BindAppend` | dialect/placeholders.go:12-20 | binding splits at every point of a text, the second part numbered from behind the first part's marks |
| `Binding.BindClause` | orm/orm.go:1722-1740 | one clause: an empty expression drops its arguments, no arguments leave its marks alone |
| `Binding.JoinBound` | orm/orm.go:858-862 | clauses bound one by one and joined are the joined clauses bound once, with as many arguments as marks |
| `Binding.BindAll` | orm/orm.go:858-872 | the loops over where and having: each clause numbered from behind all arguments so far |
| `Binding.BindJoins` | orm/orm.go:848-857 | the loop over joins: conditions numbered on, cross joins without one |
| `Binding.BuildSelectSQL` | orm/orm.go:836-876 | the SELECT with every clause bound by itself, and the arguments in clause order |
| `Binding.SelectBindsOnce` | orm/orm.go:836-876 | with unmarked identifiers that SELECT is the unbound statement bound once, one argument per mark, when every clause has as many marks as arguments |
| `BoundStatements.BoundSelectReadsBack` | orm/orm.go:836-876 | every SELECT that is sent reads back as the query it was built from, section by section, with the placeholders in their clauses |
| `BoundStatements.KindsStartJoins` | orm/orm.go:646-670 | the kinds of join the program writes, LEFT, RIGHT, INNER and CROSS JOIN, are each read as the start of one join |
| `BoundStatements.SelectServesClauses` | orm/orm.go:846-872 | and each placeholder asks for the argument its own clause came with |
| `BoundStatements.SelectMeansAll` | dialect/postgres/postgres.go:340-343 | read from the sent text, the WHERE list of a SELECT means all of its clauses, if none has an OR outside quotes and parentheses |
| `Binding.UpdateSetClauses` | orm/orm.go:1426-1450 | one numbered assignment per collected value in column order, never a key or version column |
| `Binding.BuildWhereClauses` | orm/orm.go:1483-1498 | key equalities and then the extra predicates, numbered on |
| `Binding.BuildUpdateSQL` | orm/orm.go:396-440 | the UPDATE statement of Session.update, with the version increment, and its failure without an assignment |
| `Binding.UpdateBindsOnce` | orm/orm.go:396-440 | with unmarked identifiers that UPDATE is the unbound statement bound once, one argument per mark |
| `BoundStatements.BoundUpdateReadsBack` | orm/orm.go:396-440 | every UPDATE that is sent reads back as its table, the numbered assignments with the version increment, the numbered key equalities with the extra conditions, and its RETURNING columns, for any names |
| `BoundStatements.SetListIs` | orm/orm.go:1426-1450 | the SET list assigns exactly the collected columns that are neither keys nor versions, each its value |
| `BoundStatements.UpdateServesAssignments` | orm/orm.go:1426-1450 | each assignment's placeholder asks for the column's collected value |
| `BoundStatements.UpdateServesKeys` | orm/orm.go:1483-1498 | each key equality's placeholder asks for the key's value |
| `BoundStatements.UpdateServesExtra` | orm/orm.go:1483-1498 | and those of an extra clause for the arguments it came with |
| `BoundStatements.UpdateMeansAll` | dialect/postgres/postgres.go:397-401 | read from the sent text, the WHERE list of an UPDATE means the keys and every extra clause, version check and scope conditions included, if none has an OR outside quotes and parentheses |
| `Binding.PlaceholdersInOrder` | dialect/postgres/postgres.go:41-43 | read back from the text, the placeholders are $1 to $n in left-to-right order |
| `Binding.SelectNumbersItsArguments` | orm/orm.go:836-876 | every SELECT asks for exactly $1 to $n with n the number of arguments it carries |
| `Binding.UpdateNumbersItsArguments` | orm/orm.go:396-440 | and so does every UPDATE |
| `AccessScope.ValidateContextForOperation` | access/engine.go:195-251 | the first column whose scope id or user is missing decides; nothing is checked for the system policy |
| `AccessScope.Apply` | access/engine.go:103-193 | predicates and writes of all active columns in order, or the validation error alone |
| `AccessScope.PredicatesMeanScope` | access/engine.go:116-163 | the predicates hold of exactly the rows that belong to the caller in every active scope |
| `AccessScope.WriteChecksImplyQueryChecks` | access/engine.go:195-251 | when the checks of any operation pass, those of a query pass |
| `AccessScope.CheckedWriteStaysInScope` | orm/orm.go:1500-1507 | so the error accessPredicates drops cannot occur after a checked write: with conditions that are closed, the statement changes exactly the named rows within the caller's scopes |
| `WhereText.JoinedMeansAll` | dialect/postgres/postgres.go:397-401 | clauses without a top-level OR, joined by AND, mean that all of them hold |
| `WhereText.ScopeRestrictsIff` | dialect/postgres/postgres.go:397-401 | a scope condition behind the caller's clauses restricts the statement, whatever rows there are, if and only if no clause has a top-level OR |
| `AccessScope.PopulateAuditAndScope` | orm/orm.go:1205-1277 | scope ids, users and timestamps collected for a write |
| `AccessScope.ApplyStructFieldValues` | orm/orm.go:1279-1340 | the model's own values for what is still missing; nothing under the system policy |
| `AccessScope.Session.Update` | orm/orm.go:366-449 | Update and UpdateWhere: every error leaves the table alone, success changes only named rows in scope |
| `AccessScope.Session.SoftDelete` | orm/orm.go:1562-1597 | the same for soft deletion |
| `AccessScope.Session.Create` | orm/orm.go:294-327 | the row appended, or why none is |
| `AccessScope.CollectedAt` | orm/orm.go:1205-1340 | what Create or Update collects for a column: time, user, scope id, the model's own value, in this order of precedence |
| `AccessScope.CreatedRowIsInScopeIff` | orm/orm.go:294-327 | a created row belongs to its creator in every active scope, whatever the model's scope fields say, if and only if no scope column is an audit column that takes another value |
| `AccessScope.UpdatedRowStaysIff` | orm/orm.go:366-449 | a row an update reaches stays in the caller's scopes if and only if the update assigns nothing but the caller's id to the active scope columns |
| `AccessScope.PlainScopeKeepsIff` | orm/orm.go:1279-1340 | for a plain scope column that is: the model's field is absent, zero or the caller's id |
| `AccessScope.Session.Find` | orm/orm.go:788-834 | the rows in scope that satisfy the caller's conditions and are not soft-deleted, or the missing context value |
| `ScopeMeaning.InScopeMeansOwn` | access/policy.go:78-89 | being in scope is holding the caller's company, tenant, organization, workspace, warehouse and user in every column of these scopes; ignore_company leaves out the company, ignore_rls and system everything |
| `ScopeMeaning.MissingMeansLacking` | access/engine.go:195-251 | an operation starts iff the caller has the id of every scope asked for and a user where the operation records one; otherwise the first lack is reported |
| `ScopeMeaning.FindAnswers` | orm/orm.go:788-834 | Find returns, in order, exactly the rows that meet the conditions, are the caller's in that sense and have nothing in the first soft-delete column; deleted rows show when asked for or under the system policy |
| `ScopeMeaning.CreatedCells` | orm/orm.go:1205-1340 | what Create puts into each column, by the column's marks and the policy: time, user, the scope's own id, the model's field |
| `ScopeMeaning.UpdatedCells` | orm/orm.go:1205-1340 | what Update assigns to each column, by its marks |
| `ScopeMeaning.UpdateAssigns` | orm/orm.go:366-449 | an update changes exactly the caller's rows with the model's keys, or that meet the conditions, by these assignments |
| `ScopeMeaning.UpdateDeletesIff` | orm/orm.go:1319-1328 | a row an update names is undeleted afterwards iff it was before and the model has no field for the deleted_at column: a zero field is stamped with the time of the update |
| `ScopeMeaning.SoftDeleteMarks` | orm/orm.go:1562-1597 | a soft deletion marks the caller's rows with the model's keys with its time, iff the soft-delete column can be set, and changes no other row |
| `ScopeMeaning.SoftDeletedIsHidden` | orm/orm.go:1562-1597 | after it no Find of the same caller returns a row with these keys |
| `AccessScope.FindGrowsWithPolicy` | access/policy.go:78-89 | along Default, IgnoreCompany, IgnoreRLS, System a Find never starts to fail and its answer only grows: filtering the wider answer gives the narrower |
| `AccessScope.SystemPolicyWritesNothing` | orm/orm.go:1279-1282 | under the system policy Create, Update and UpdateWhere collect no values and always fail |
| `SnapshotHeap.Clone` | schema/types.go:142-192 | the copy says the same, has no object of its own in common with the original, and shares the lists of enum values and, one level down, what element types point to |
| `SnapshotHeap.Sort` | schema/types.go:272-284 | sorting in place, enums and views included, as a stable sort of the contents |
| `SnapshotHeap.Validate` | schema/types.go:286-317 | accepts exactly schemas with present and unique table and column names |
| `SnapshotEdits.ApplyEdit` | schema/types.go:142-192 | any edit of a snapshot's own objects, at any place, has its effect there and writes to nothing a copy has |
| `SnapshotEdits.WriteEnum` | schema/types.go:172-192 | a write into a list of enum values shows in the copy |
| `SnapshotEdits.WriteShared` | schema/types.go:182-185 | so does a write to an element type's enum values or metadata, and to anything of the element types further in |
| `SnapshotCache.SortTwice` | schema/types.go:272-284 | sorting twice is sorting once |
| `SnapshotCache.Store.LoadCachedSnapshot` | schema/cache.go:48-56 | a hit iff the entry has the fingerprint of the current bytes, and then a copy of what the entry says |
| `SnapshotCache.Store.HitSays` | schema/cache.go:48-56 | in a valid store an entry that answers for the current bytes says their sorted parse |
| `SnapshotCache.Store.StoreCachedSnapshot` | schema/cache.go:58-66 | the entry is a copy made from the bytes its fingerprint names |
| `SnapshotCache.Store.LoadSnapshot` | schema/snapshot.go:17-35 | the sorted parse of the current bytes, or its error, as if there were no cache, in objects the cache does not know |
| `SnapshotCache.Store.SaveSnapshot` | schema/snapshot.go:37-63 | sorts the caller's snapshot, also when validation then refuses it; otherwise writes its text through a temporary file, which a failing write or rename leaves behind, and caches a copy only when all of it worked |
| `SnapshotCache.Client.Run` | schema/snapshot.go:17-63 | any run of loads, saves, outside writes, snapshots made by the caller and edits of everything in held snapshots that a clone copies gives the replies, files and snapshots it would give without a cache |
| `SnapshotCache.EnumWriteReachesCache` | schema/types.go:172-192 | writing into an enum list of a saved snapshot corrupts the entry that still answers for the file |
| `SnapshotCache.ElementWriteReachesCache` | schema/types.go:182-185 | so does writing below an element type that clones copy: its enum values and metadata, and every part of the element types inside it |
| `SnapshotCache.LoadAfterSharedWrite` | schema/snapshot.go:17-63 | from a fresh cache to a wrong answer: after saving a column of an array of arrays and renaming its innermost type, loading the unchanged file gives the new name |
| `TypeWalk.ToSnakeCase` | schema/util.go:8-32 | the loop, character by character |
| `TypeWalk.SnakeKeepsLetters` | schema/util.go:8-32 | on a name of letters and digits it only inserts underscores and lowers capitals |
| `TypeWalk.SnakeIdempotentIff` | schema/util.go:8-32 | idempotent on a name if and only if at each capital the lower case is not a capital, dash or blank, or the capital is such that its lower case stays itself and it is not right behind a capital that lowers to a letter or digit |
| `TypeWalk.AsciiSnakeIdempotent` | schema/util.go:8-32 | in particular on every ASCII name |
| `TypeWalk.UnpairedCapitalNotIdempotent` | schema/util.go:14-20 | a concrete name of two letters on which it is not |
| `TypeWalk.Walker.Collect` | schema/traits.go:56-94 | terminates on cyclic embeddings, because the types not on the path get fewer; columns and paths are appended in walk order and `seen` is restored |
| `TypeWalk.WalkIffSimple` | schema/traits.go:56-94 | a field is recorded iff its path runs through exported embedded structs without repetition and ends at an exported plain field |
| `TypeWalk.WalkDistinct` | schema/traits.go:73-93 | no field is recorded twice |
| `TypeWalk.PathsLeadToTheirKey` | schema/traits.go:91-92 | every index path in the map leads to a field whose key is the map key |
| `TypeWalk.EveryColumnIsFound` | orm/orm.go:1684-1693 | every discovered column of a name on which ToSnakeCase is idempotent is found again by its column name, at its own field unless another shares the key |
| `TypeWalk.Discovery.Discover` | schema/traits.go:32-54 | with its cache, the result for a type is that of a fresh walk |

## Left out

- Tracing, metrics, logging, dry runs, hooks, DSN handling, the command line, code analysis, error type hierarchies: no state the theorems speak about.
- The SQL text of schema changes: diffs are given a meaning on `schema.Operation`; the renderer is coarser (it leaves out indexes of new tables and most column changes), which diffs it can render is a parameter of `Generate`.
- Down migrations step by step: only their end state is claimed; a reversed list can create an index before the column it needs.
- Views and enums: `Compare` does not look at them.
- Migrations.Service.Write: a write that fails leaves no part of its file; the down files are keyed by the up file's name.
- Deployment.DeployAgain: a file is executed again as operations, of which creating a constraint replaces a namesake; the statement for it has no IF NOT EXISTS, so PostgreSQL refuses that file, which is one of the exec failures.
- Deployment.DevelopAndDeploy: the files of a generation are all written; model schemas are valid in the sense of `Schema.Validate`, as the builder produces them, and the directory holds nothing but generated files.
- SchemaDiff.Compare: works on values; that cloning keeps the caller's schemas from being sorted is a matter of SnapshotHeap.
- DiffSemantics.EveryStepFits: existence of columns and objects only, foreign keys apart (they are in ForeignKeys), and not whether PostgreSQL accepts their types or data.
- Handles.DB.Transaction: callbacks do not finish their own handle (`Handles.DB.Finish` says what Transaction returns then), contexts are never cancelled, the connection is never lost, and a root COMMIT that PostgreSQL turns into a rollback is reported as an error, as pgx does.
- Handles.DB.BatchWrite: item functions are blocks of statements and nested transactions.
- Handles built with `Config.Tx`, concurrent root transactions and prepared statement caches: not part of this model.
- OptimisticLock.NoLostUpdate: every update counts as committed at once, so one that succeeds inside a transaction that is rolled back later is not modelled; one row; Upsert, soft deletion and recreation of the row do not take part in the version check.
- OptimisticLock.Model.Update: fails on a row that exists with another version or not at all alike; access predicates are in AccessScope.
- Binding.SelectBindsOnce: identifiers and raw fragments contain no question mark, and a question mark inside a string literal of a clause counts as a mark, as it does for the program.
- Binding.BuildSelectSQL: option errors, negative limits and the trimming of option texts are not modelled.
- StatementText.SelectReadsBack: fragments with a keyword outside quotes and parentheses, such as BETWEEN with its AND, cannot be told from the statement's own clauses by reading words.
- ScopeMeaning.SoftDeletedIsHidden: the soft-delete column is no key; where it is a version column and other columns are stamped, the deletion does not reach it (`ScopeMeaning.SoftDeleteMarks`).
- SeedSync.SyncReconciles: tables without version, soft-delete and scope columns; key fields are not audit columns; a column named like an audit field is flagged as one; rows have all columns of the model.
- SeedSync.Session.Find: rows are returned in table order; which two rows a limit keeps is the database's choice and does not matter to Sync.
- AccessScope.Session.Update: the version column and hooks are left out; a WHERE option is one closed condition (WhereText says when its text is).
- AccessScope.CheckedWriteStaysInScope: conditions are closed predicates.
- SecondSync.SecondSyncIff: constraints that look at audit columns, whose verdict depends on the time of the run.
- AccessScope.Session.Find: joins, grouping, ordering and limits of a query are left out.
- AccessScope.UpdatedRowStaysIff: column names are unique, as `Schema.Validate` demands.
- Hard deletion and Upsert: neither validates its context; the first relies on predicates alone.
- SnapshotHeap.Clone: a snapshot and the schema object it points to are one object; indexes, constraints, enums, views and string maps of tables and columns, which are copied whole, are values; nil maps and lists count as empty ones.
- SnapshotHeap.Validate: nil tables and nil columns, which `Clone` drops and `Validate` refuses.
- SnapshotCache.Client.Run: callers do not write to what clones share (`SnapshotCache.ElementWriteReachesCache` shows why), no two columns point to one element type, and no table or column of one held snapshot is put into another; edits are the ones `SnapshotEdits.Edit` lists.
- Binding.UpdateNumbersItsArguments: statements without a dollar sign of their own and without a digit right behind a mark, in which the placeholders could not be read back.
- ForeignKeys.EveryStepFitsIff: that the referenced columns are unique is PostgreSQL's to check.
- `loadCachedSchema`: the same cache over a fingerprint of file sizes and times, which is not injective.
- TypeWalk.Walker.Collect: column flags from tags and embedded traits; a field type is named without its pointers.
- TypeWalk.Discovery.Discover: the result is a value, so copies handed to callers need no clone.
- The table cache across databases with different schemas, compatibility and version helpers: easy members only.
