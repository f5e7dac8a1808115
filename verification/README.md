# The reconcile protocol of the PostgreSQL config operator

A Dafny model of an operator that keeps PostgreSQL publications, tables and grants in line with Kubernetes
custom resources, with proofs about it. Three stores are modelled: the desired configuration, the API
server's objects (identity, version, owners, finalizers, deletion mark) and the PostgreSQL catalog. The
controllers are classes whose methods follow the original calls one by one; every call has a *fate*: it is
delivered, it is lost, or it is carried out and its answer is lost.

Each method is proved equal to a function on values that says what the calls come to under given fates
(`...Run`). The theorems are about those functions, and the functions meet the code twice over: through the
methods' contracts, and through independent definitions they are proved to agree with (a parser, a protocol
machine, a set difference, a closed form, a measure).

## Layout

| files | content |
|---|---|
| `SqlText`, `SqlGrammar` | quoting (sections 4.1.1 and 4.1.2.1 of the PostgreSQL documentation), a lexer, a parser for the emitted sublanguage |
| `PublicationSql`, `TableSql`, `GrantSql` | the printers, and the proof that the parser undoes them |
| `Postgres`, `Kube` | the assumed rules of the two servers, and connections on which calls fail |
| `PublicationManager`, `PublicationRefinement` | CREATE, two ALTERs, aiven_extras: three ways to one catalog entry |
| `PublicationProtocol`, `PublicationSafety`, `PublicationLiveness` | the protocol machine of one resource name and one publication name, whose steps are single calls; its invariant; no orphans; exactly which runs get stuck |
| `PublicationController`, `PublicationRuns` | the publication controller, the proof that each of its reconciles is a run of the machine, and what its verdict means under every fault |
| `ConfigDiff`, `ConfigController`, `ConfigRuns`, `ConfigOutcome`, `ConfigSteps`, `ConfigIsolation` | the config controller: its diff, its runs under faults and stale lists, its place in the protocol machine, what it may touch |
| `Convergence`, `ConvergenceLimits`, `Executions`, `Interleavings` | both controllers together: three rounds suffice, exactly from which states, and which call-level interleavings lead there |
| `Counterexamples` | runs that go wrong, in full |
| `TableController`, `TableHistory`, `HaveColumns` | add-only table migration, its history in closed form, an independent observer |
| `GrantAdmission`, `GrantController` | admission of privilege lists, and what it guarantees about the emitted text |

## Assumptions

* `pgx.Identifier.Sanitize` drops NUL, doubles the double quote, wraps each part and joins with a dot;
  `EscapeString` doubles the single quote and fails when the server's strings are not standard-conforming.
* API server: Create fails on an existing name, Update fails on a version or identity mismatch, Delete only
  marks an object that has finalizers, a marked object vanishes with its last finalizer, an update that
  changes nothing keeps the version, versions and identities are never used twice.
* PostgreSQL: the rules in `Postgres.Apply` and `Postgres.EntryAfter`; a refused statement changes nothing;
  a transaction is invisible until it commits; the catalog is not changed by others during a transaction.
* Reconciles of one resource do not overlap. The publication controller's cache may lag but does not go
  back in time. An object keeps the publication it names and its database reference for as long as it
  exists; names of publications are unique per database. A resource name may pass from one publication to
  another (`a_b` and `a-b` share one), which is why a machine stands for a pair of names.
* Edits by users and by the config controller neither add nor remove the publication controller's finalizer.

## What turned out false, and when exactly it holds

* *Every interleaving of the two reconciles converges.* Not call by call: an edit of a terminating object
  between the read and the removal of its finalizer (the config controller makes such an edit when a name is
  added again with another spec) leaves an object that nothing releases, without any fault;
  `Counterexamples.RaceWedges` is such a run from the very beginning.
  `PublicationLiveness.ReleasedExactly` says for one deletion exactly when that happens. Whole states:
  `ConvergenceLimits.ConvergesExactly` says from which states all schedules of reconciles converge, if and
  only if. Whole runs: after any interleaving of single calls in which that does not happen, three rounds
  converge (`Interleavings.InterleavingsConverge`); undisturbed reconciles are such runs
  (`Interleavings.UndisturbedIsGentle`), and so are the config controller's wherever they do not fall between
  a DROP and the release (`ConfigSteps.ConfigRunIsEdits`).
* *The Aiven path ends as the standard one does.* For non-empty tables, if and only if no NUL stands in the
  name or the operations and, where operations are given, they can be escaped
  (`PublicationRefinement.AivenAgreesExactly`).
* *An error from the table migration means nothing has changed.* Except when the answer to COMMIT is lost
  (`TableHistory.AllOrNothing`, if and only if).
* *A config never touches objects it does not own.* With an up-to-date list it does not. DELETE carries only
  a name, so with an outdated list it may (`ConfigIsolation.IsolationExactly`, if and only if;
  `Counterexamples.OutdatedListDeletesStranger` is a case).
* *A rename always succeeds in the end.* Not to a name that differs only in `_` and `-`: creations come
  first, and the old object blocks them for good (`ConfigDiff.CollidingRenameBlocks`,
  `ConfigDiff.BlockedForGood`).

## Model

| member | source | states |
|---|---|---|
| PublicationSql.ReadCreatePublication | controllers/publicationmanager/std.go:51-92 | the emitted CREATE PUBLICATION reads, character by character, as a CREATE of that publication: name, table list or all tables, publish literal, whatever characters the names contain |
| PublicationSql.CreatePublicationRoundTrip | controllers/publicationmanager/std.go:51-92 | with NUL-free names and valid operations, parsing returns the whole resource: name, ordered tables (none for all), ordered operations |
| PublicationSql.CreatePublicationInjective | controllers/publicationmanager/std.go:51-92 | two different publications are never printed alike |
| PublicationSql.ReadSetTables | controllers/publicationmanager/std.go:100-110 | ALTER ... SET TABLE reads back as the same publication name and ordered tables |
| PublicationSql.ReadSetNoTables | controllers/publicationmanager/std.go:106-114 | with no tables the emitted ALTER is not a statement |
| PublicationSql.ReadSetPublish | controllers/publicationmanager/std.go:128-132 | ALTER ... SET (publish = ...) reads back as the name and the unescaped value |
| PublicationSql.ReadDropPublication | controllers/publicationmanager/std.go:144-150 | DROP PUBLICATION reads back as a drop of that name |
| PublicationSql.AlterRoundTrip | controllers/publicationmanager/std.go:106-132 | the two ALTERs together carry name, ordered tables (none cannot be said) and ordered operations (none are written as all four) |
| PublicationSql.ReadPublishUndoesJoin | controllers/publicationmanager/std.go:72-80 | the server splits the joined publish value back into exactly the list of operations |
| PublicationSql.DefaultIsEverything | controllers/publicationmanager/manager.go:12 | the default publish value stands for all four operations |
| TableSql.ReadCreateTable | controllers/postgrestable_controller.go:185-230 | the emitted CREATE TABLE reads as a CREATE with the same name, column items in order and key item |
| TableSql.CreateTableRoundTrip | controllers/postgrestable_controller.go:185-230 | for NUL-free names and distinct columns, parsing returns the specification itself, with Nullable and PrimaryKey flags; zero columns and composite keys included |
| TableSql.CreateTableInjective | controllers/postgrestable_controller.go:185-230 | two different specifications are never printed alike |
| TableSql.ReadCreateSchema | controllers/postgrestable_controller.go:172-178 | CREATE SCHEMA IF NOT EXISTS reads back as that schema |
| TableSql.ReadAddColumn | controllers/postgrestable_controller.go:274-287 | the emitted ALTER TABLE ... ADD COLUMN reads back as that table, column, type and nullability |
| GrantSql.ReadGrant | controllers/postgresgrant_controller.go:129-134 | GRANT reads back as its privileges, identifier and role when every privilege is one word, whatever the quoted names contain |
| PublicationManager.StdManager.BuildCreatePublicationQuery | controllers/publicationmanager/std.go:51-92 | the query is the printed text, or an error exactly when operations must be escaped and cannot be |
| PublicationManager.StdManager.CreatePublication | controllers/publicationmanager/std.go:27-49 | created, existed (duplicate object only) or failed, with the catalog the server is left with |
| PublicationManager.StdManager.AlterExistingPublication | controllers/publicationmanager/std.go:94-142 | two statements, the second only after the first succeeded; catalog and result as in AlterRun under every fate (what success means: PublicationRefinement.AltersExactly) |
| PublicationManager.StdManager.DropPublication | controllers/publicationmanager/std.go:144-155 | one DROP of that name, success when the server says so |
| PublicationManager.AivenManager.CreatePublication | controllers/publicationmanager/aiven.go:21-51 | one call to the extension with the sanitized tables and the joined or default operations |
| PublicationManager.Reconcile | controllers/postgrespublication_controller.go:206-240 | create; alter only what already existed; catalog and result as in ReconcileRun under every fate (what success means: PublicationRefinement.SucceedsExactly, Attains) |
| PublicationRefinement.AlterRefinesCreate | controllers/postgrespublication_controller.go:214-237 | without faults a reconcile succeeds if and only if the entry is within reach, and then the entry is the wanted one whether it was created or altered; nothing else changes |
| PublicationRefinement.AltersExactly | controllers/publicationmanager/std.go:94-142 | under every fate the two ALTERs succeed if and only if there is an entry that can be altered and both were answered; then the entry is the wanted one |
| PublicationRefinement.SucceedsExactly | controllers/postgrespublication_controller.go:206-240 | under every fate and through either manager, success means the wanted entry and no other change; it is reported if and only if the entry is within reach and each call that it takes, one or three, was carried out and answered |
| PublicationRefinement.AivenWithoutTables | controllers/publicationmanager/aiven.go:21-51 | through the extension and without tables, success means that an absent publication was made with the scope the extension takes that for; an existing one is never reconciled |
| PublicationRefinement.Attains | controllers/postgrespublication_controller.go:206-240 | both cases, for all publications |
| PublicationRefinement.OnlyThreeEntries | controllers/publicationmanager/std.go:94-142 | through either manager, whatever fails, the entry is the old one, the wanted one, or the old one with the new tables |
| PublicationRefinement.LastSpecificationWins | controllers/postgrespublication_controller.go:206-240 | after any sequence of specs, managers and failures the first fault-free reconcile depends only on the last spec |
| PublicationRefinement.OmittedMeansAll | controllers/publicationmanager/std.go:116-121 | omitted operations mean all four on the create path and on the alter path |
| PublicationRefinement.EverythingIsStuck | controllers/publicationmanager/std.go:106-114 | a publication of all tables is out of reach of every later spec, through either manager |
| PublicationRefinement.AivenAgrees | controllers/publicationmanager/aiven.go:21-65 | where the managers are interchangeable they give the same catalog, the same use of the connection and the same result under every fate |
| PublicationRefinement.AivenAgreesExactly | controllers/publicationmanager/aiven.go:21-65 | for non-empty tables they always agree if and only if no NUL is in name or operations and given operations can be escaped |
| PublicationProtocol.StepKeeps | controllers/postgrespublication_controller.go:155-187 | every single call of a reconcile, every edit and every foreign statement keeps the protocol invariant |
| PublicationProtocol.RunKeeps | controllers/postgrespublication_controller.go:64-134 | so does every run, with crashes, failures and monotone stale reads anywhere |
| PublicationProtocol.WithoutSplits | controllers/postgrespublication_controller.go:177-178 | removing the finalizer keeps every other one, in its order |
| PublicationSafety.NoOrphans | controllers/postgrespublication_controller.go:162-187 | in every reachable state a publication the controller created has a live object, the one it was created for, which names it and holds the finalizer |
| PublicationSafety.NoOrphansAnywhere | controllers/postgrespublication_controller.go:109-117 | the same for all resources under every interleaving of their steps |
| PublicationSafety.DropOnlyWhenMarked | controllers/postgrespublication_controller.go:170-175 | every successful DROP acts for an object that names the publication and is marked for deletion, and never on a publication created for another |
| PublicationSafety.NeverRecreated | controllers/postgrespublication_controller.go:177-183 | once the publication of an object was dropped, no later step creates one for that object, stale reads included |
| PublicationSafety.DeletionIsExact | controllers/postgrespublication_controller.go:172-181 | one fault-free reconcile releases a terminating object if and only if its publication exists |
| PublicationSafety.StuckExactly | controllers/postgrespublication_controller.go:172-181 | the publication of a terminating object is gone if and only if no run releases the object, unless somebody else creates the publication |
| PublicationSafety.WedgedForever | controllers/postgrespublication_controller.go:172-181 | from that state no run of the controllers, with any edits and any statements of others that do not create the publication, releases the object |
| PublicationSafety.EditAfterDropWedges | controllers/postgrespublication_controller.go:173-181 | an edit between the DROP and the removal of the finalizer leads there without any fault |
| PublicationSafety.StopAfterDropWedges | controllers/postgrespublication_controller.go:177-180 | so does stopping between the two |
| PublicationSafety.DeleteBeforeCreateWedges | controllers/postgrespublication_controller.go:172-175 | so does a deletion seen before any CREATE succeeded |
| Counterexamples.RaceWedges | controllers/postgrespublication_controller.go:170-183 | a run from the beginning, without a fault, to an object nothing releases: the config adds the name again with another spec while its object is being deleted |
| PublicationLiveness.ReleasedExactly | controllers/postgrespublication_controller.go:170-183 | with any edits before and after the DROP, the object is released if and only if none has changed it since the read; otherwise it is stuck for ever |
| PublicationLiveness.GentleRunsNeverWedge | controllers/postgrespublication_controller.go:155-187 | runs without those mishaps never get stuck, whatever else interleaves, and leave every marked object releasable; that they lead to convergence is Interleavings.InterleavingsConverge |
| PublicationController.PublicationReconciler.ContainsString | controllers/postgrespublication_controller.go:251-258 | true if and only if the string is in the slice |
| PublicationController.PublicationReconciler.ManagerFor | controllers/postgrespublication_controller.go:136-152 | a manager exactly for the empty, the standard and the Aiven variant, Aiven exactly for the last |
| PublicationController.PublicationReconciler.DeleteExternalResources | controllers/postgrespublication_controller.go:191-203 | one DROP of the publication the object names |
| PublicationController.PublicationReconciler.HandleFinalizers | controllers/postgrespublication_controller.go:155-187 | the finalizer before anything else, the DROP before its removal, the first failure ends it |
| PublicationController.PublicationReconciler.Reconcile | controllers/postgrespublication_controller.go:64-134 | stores and verdict as in PublicationRun under every fate and cache answer (what the verdict means: PublicationRuns.VerdictExactly, FinishedMeansDone) |
| PublicationController.StatementOnEntry | controllers/publicationmanager/std.go:144-155 | a publication statement, delivered or not, changes only the entry it names, in the way the machine's step does |
| PublicationRuns.ReconcileIsARun | controllers/postgrespublication_controller.go:64-134 | every reconcile, on any cache answer and with any faults, is a run of the machine made of the controller's own steps, also when the object names another publication, and touches nothing else |
| PublicationRuns.ReconcileKeepsNoOrphans | controllers/postgrespublication_controller.go:109-117 | hence in the actual stores a created publication keeps the object it was created for, which names it and holds the finalizer |
| PublicationRuns.UndisturbedReconcile | controllers/postgrespublication_controller.go:64-134 | without faults and on the present object it has one stated outcome |
| PublicationRuns.VerdictExactly | controllers/postgrespublication_controller.go:64-134 | under every fate and cache answer: finished if and only if there is no object, or the database is reached, the variant known, the finalizer dealt with and every statement needed answered; an error if and only if the finalizer could not be dealt with; otherwise a requeue |
| PublicationRuns.FinishedMeansDone | controllers/postgrespublication_controller.go:106-133 | finished on an unmarked object: the publication is the wanted one and the object holds the finalizer; on a marked one with the finalizer: publication and finalizer are gone; on a marked one without it: nothing has changed |
| PublicationRuns.UndisturbedVerdict | controllers/postgrespublication_controller.go:64-134 | with an up-to-date object and no faults: finished if and only if it is absent, or marked and its publication is there or the finalizer is not, or unmarked and the entry within reach |
| ConfigDiff.LeftToDo | controllers/postgresconfig_controller.go:97-150 | what a partial run leaves to do is exactly what it did not do |
| ConfigDiff.EveryCallCounts | controllers/postgresconfig_controller.go:122-148 | the distance to the config drops by exactly the creations, the updates of stale objects and the deletions of unmarked ones |
| ConfigDiff.SuccessIsOutcome | controllers/postgresconfig_controller.go:122-150 | a successful run has the same outcome in every order |
| ConfigDiff.OutcomeHasNoGap | controllers/postgresconfig_controller.go:97-150 | and that outcome is at distance zero |
| ConfigDiff.OutcomeIsAsListed | controllers/postgresconfig_controller.go:97-150 | in the outcome every listed publication has, under the name made from its name, an owned object with exactly its last entry and the config's database reference; every other owned object is marked |
| ConfigDiff.NoGapIsFixed | controllers/postgresconfig_controller.go:97-150 | distance zero if and only if a further run changes nothing |
| ConfigDiff.ResumesAnywhere | controllers/postgresconfig_controller.go:122-148 | finishing a run that stopped anywhere gives what an undisturbed one would have |
| ConfigDiff.RetriesConverge | controllers/postgresconfig_controller.go:122-148 | so does finishing after any number of failed runs |
| ConfigDiff.CollisionsExactly | controllers/postgresconfig_controller.go:248-257 | resource names collide if and only if publication names agree up to `_` and `-` |
| ConfigDiff.ResourceNameSpelled | controllers/postgresconfig_controller.go:248-257 | the config name, a dash, and the publication name with dashes for underscores, character by character |
| ConfigDiff.OwnedExactly | controllers/postgresconfig_controller.go:264-281 | an object is listed for a config if and only if the first controller among its owners is a PostgresConfig of that name |
| ConfigDiff.LastEntryCounts | controllers/postgresconfig_controller.go:92-95 | every entry of the list is desired, in the version of the last entry of its name, and nothing else is |
| ConfigDiff.RunsCommute | controllers/postgresconfig_controller.go:122-148 | successful runs of two configs with different new names commute |
| ConfigDiff.Isolation | controllers/postgresconfig_controller.go:268-280 | objects of other owners are left as they are, and every new object is owned |
| ConfigDiff.BlockedForGood | controllers/postgresconfig_controller.go:122-129 | while a name to create is taken no run succeeds, updates or deletes anything, and the block stays |
| ConfigDiff.CollidingRenameBlocks | controllers/postgresconfig_controller.go:248-257 | renaming to a colliding name is such a block |
| ConfigController.ConfigReconciler.CurrentByName | controllers/postgresconfig_controller.go:87-90 | the by-name map of the list, later items overriding |
| ConfigController.ConfigReconciler.DesiredByName | controllers/postgresconfig_controller.go:92-95 | the by-name map of the spec: every entry is in it, the last one of each name counts, and nothing else is in it |
| ConfigController.ConfigReconciler.CreatesAndUpdates | controllers/postgresconfig_controller.go:98-108 | in some order, exactly the desired names without an object, and the others paired with theirs |
| ConfigController.ConfigReconciler.Deletes | controllers/postgresconfig_controller.go:110-115 | in some order, exactly the listed objects that are not desired |
| ConfigController.ConfigReconciler.CreatePublications | controllers/postgresconfig_controller.go:153-176 | one create per publication up to the first failure |
| ConfigController.ConfigReconciler.UpdatePublications | controllers/postgresconfig_controller.go:178-205 | one versioned update per pair, only the spec replaced, up to the first failure |
| ConfigController.ConfigReconciler.DeletePublications | controllers/postgresconfig_controller.go:231-246 | one delete by name per object up to the first failure |
| ConfigController.ConfigReconciler.Reconcile | controllers/postgresconfig_controller.go:66-151 | for some order of the maps, the store and the result are those of ConfigRun under every fate; nothing happens without a config or a list (what success means: ConfigOutcome.SucceedsExactly) |
| ConfigRuns.ByNameLosesNothing | controllers/postgresconfig_controller.go:87-90 | on well-named lists the by-name map is one-to-one and onto |
| ConfigRuns.RunKeepsNames | controllers/postgresconfig_controller.go:185-229 | no run of any config, on any well-named list and with any faults, breaks the naming of any config's objects |
| ConfigRuns.AlwaysWellNamed | controllers/postgresconfig_controller.go:207-257 | over all histories of config reconciles on arbitrarily old lists, edits, and creation, edits and renaming of objects no config owns, from any well-named store, every owned object is named after its publication |
| ConfigOutcome.InformedRun | controllers/postgresconfig_controller.go:66-151 | with an up-to-date list a run under any faults and order is one of the partial runs, in the order creations, updates, deletions; other owners' objects keep even their versions |
| ConfigOutcome.SuccessIsAsListed | controllers/postgresconfig_controller.go:92-150 | whatever fails on the way, success means that every listed publication has its owned object with its last entry, and every other owned object is marked or gone |
| ConfigOutcome.SucceedsExactly | controllers/postgresconfig_controller.go:66-151 | on an up-to-date list it succeeds if and only if no names collide and every request was carried out and answered; then it has the one outcome, which is as the list asks for it |
| ConfigSteps.ConfigRunIsEdits | controllers/postgresconfig_controller.go:122-148 | for each resource a run, on a list as old as you like, is a series of edits of the protocol machine, and a harmless one unless it falls between a DROP and the release |
| ConfigSteps.ConfigRunOrphansNothing | controllers/postgresconfig_controller.go:122-148 | so it never separates a created publication from its object, name and finalizer |
| ConfigIsolation.WritesSpareOthers | controllers/postgresconfig_controller.go:153-205 | creations and updates leave objects of other owners alone, under any name, on any list and with any faults |
| ConfigIsolation.OnlyDeletionsCanHit | controllers/postgresconfig_controller.go:122-148 | and so does the whole run, under names it does not delete under |
| ConfigIsolation.HistoriesIdentify | controllers/postgresconfig_controller.go:76-85 | over histories in which versions only go up, a listed object with the present version is the present object |
| ConfigIsolation.IsolationExactly | controllers/postgresconfig_controller.go:231-246 | a successful run leaves an unmarked foreign object alone if and only if it does not delete under that name |
| Counterexamples.OutdatedListDeletesStranger | controllers/postgresconfig_controller.go:231-246 | a history, a list that was once true, and a run that deletes an object the config does not own |
| ConfigIsolation.UpToDateDoomsOwned | controllers/postgresconfig_controller.go:76-85 | with an up-to-date list it deletes only under names of owned objects |
| Convergence.ActLowers | controllers/postgrespublication_controller.go:64-134 | no reconcile of either controller takes a publication further from its goal, the responsible one brings it closer, at the goal nothing moves |
| Convergence.ValidConfigIsGood | controllers/postgresconfig_controller.go:248-257 | valid operations, existing tables and names that differ in more than `_` and `-` are all that is asked of the config |
| Convergence.ThreeRoundsConverge | controllers/postgresconfig_controller.go:66-151 | from every good state three rounds in any order and with any repetition reach the owned specs and catalog entries asked for; of publications to be dropped neither object nor entry is left; nothing moves afterwards |
| ConvergenceLimits.ConvergesExactly | controllers/postgrespublication_controller.go:64-134 | every schedule of three rounds converges if and only if marked or unwanted objects with the finalizer have their publications, unwanted ones without it can be made, and no publication of all tables stands where tables are wanted |
| ConvergenceLimits.StrandedIsFixed | controllers/postgrespublication_controller.go:172-175 | a reconcile leaves a marked object whose publication is absent exactly as it is |
| ConvergenceLimits.StuckForGood | controllers/postgrespublication_controller.go:172-175 | and no schedule of both controllers gets it, or a wanted publication held by one of all tables, out of there |
| Executions.VisitIsAct | controllers/postgrespublication_controller.go:64-134 | an undisturbed reconcile on versioned objects, with any map order, is an action of the convergence theorem |
| Executions.ExecutionsConverge | controllers/postgresconfig_controller.go:66-151 | end to end: every execution of the two reconciles that contains three rounds ends with owned specs and catalog as asked for, and with neither object nor entry of the publications to be dropped |
| Interleavings.RestIsGood | controllers/postgrespublication_controller.go:155-187 | whatever gentle interleaving of single calls came before, a state with no reconcile under way is a good one |
| Interleavings.InterleavingsConverge | controllers/postgresconfig_controller.go:66-151 | so three more rounds converge |
| Interleavings.UndisturbedIsGentle | controllers/postgrespublication_controller.go:64-134 | a reconcile of the present object without faults is a gentle run |
| TableController.TableReconciler.EnsureSchemaExists | controllers/postgrestable_controller.go:167-183 | one CREATE SCHEMA IF NOT EXISTS of the spec's schema |
| TableController.TableReconciler.BuildCreateTableQuery | controllers/postgrestable_controller.go:185-230 | the two loops build exactly the printed text |
| TableController.TableReconciler.CreateTable | controllers/postgrestable_controller.go:142-165 | schema, then table; created, existed (duplicate table only) or failed |
| TableController.TableReconciler.ColumnsToAdd | controllers/postgrestable_controller.go:260-265 | the columns whose name is not among the existing ones, in the order of the spec |
| TableController.TableReconciler.BuildAddColumnQuery | controllers/postgrestable_controller.go:274-287 | the statement's text |
| TableController.TableReconciler.CollectNames | controllers/postgrestable_controller.go:237-258 | the set of the names in the rows, whatever their order and repetition |
| TableController.TableReconciler.AddColumns | controllers/postgrestable_controller.go:273-290 | one ADD COLUMN per column within the transaction, up to the first failure, which loses the work |
| TableController.TableReconciler.AlterExistingTable | controllers/postgrestable_controller.go:232-297 | query, transaction, one ADD COLUMN per missing column, commit or rollback, under every fate |
| TableController.TableReconciler.Reconcile | controllers/postgrestable_controller.go:107-140 | create; alter only what existed; catalog and result as in TableRun under every fate (what success means: TableHistory.TableRunExactly) |
| TableHistory.AllOrNothing | controllers/postgrestable_controller.go:260-296 | the table is as it was or has exactly the missing columns appended in order; after an error it has changed if and only if columns were missing, their types exist and names differ, all calls up to COMMIT were delivered and its answer was lost |
| TableHistory.TableRunMigrates | controllers/postgrestable_controller.go:107-140 | a fault-free reconcile of a well-formed spec succeeds and does only the migration |
| TableHistory.TableHistoryClosedForm | controllers/postgrestable_controller.go:142-165 | over any history from an absent table the columns are all specs' columns in order of first appearance, each as first specified, under the first spec's key |
| TableHistory.AttemptEffect | controllers/postgrestable_controller.go:107-140 | under any fates a reconcile migrates the table or leaves it alone, decided by the fates of its calls, and changes nothing else but the schema |
| TableHistory.TableRunExactly | controllers/postgrestable_controller.go:107-140 | for any spec without NUL: success means the migrated table, and it is reported if and only if types exist, names differ and every call was carried out and answered; a spec that fails this changes no table |
| TableHistory.AttemptsClosedForm | controllers/postgrestable_controller.go:142-165 | the closed form over any history of attempts, whatever failed: only the specs that took effect count |
| TableHistory.HistoryOnlyGrows | controllers/postgrestable_controller.go:232-297 | no column is ever removed or changed, and repeating the last spec adds nothing |
| HaveColumns.HaveColumnsMatcher.FetchColumnData | controllers/utils/have_columns_matcher.go:92-139 | the row fold: the last nullability per column, every column some row puts in the key |
| HaveColumns.HaveColumnsMatcher.Match | controllers/utils/have_columns_matcher.go:45-84 | accepts if and only if every declared column matches what the rows say |
| HaveColumns.ObserverIsExact | controllers/utils/have_columns_matcher.go:59-83 | on any order and repetition of the rows it accepts exactly the specs whose columns the table has with the same nullability and key membership |
| HaveColumns.FreshTableObserved | controllers/utils/have_columns_matcher.go:59-83 | on a freshly created table it accepts the spec if and only if no key column is declared nullable |
| GrantAdmission.IdentifiersForType | api/v1alpha1/postgresgrant_types.go:112-138 | the loops return one identifier for each object of the type, in order: schema and name, or the name alone for schemas and databases |
| GrantAdmission.ValidatePrivilegesForType | api/v1alpha1/postgresgrant_webhook.go:142-168 | accepts if and only if all are valid, distinct, and ALL is alone; each rejection names a true fault |
| GrantAdmission.ValidatePrivileges | api/v1alpha1/postgresgrant_webhook.go:124-140 | accepts if and only if each of the five lists is admissible for its kind of object, in whatever order the map is gone through |
| GrantAdmission.AdmissionIgnoresOrder | api/v1alpha1/postgresgrant_webhook.go:142-168 | acceptance is invariant under permutation |
| GrantAdmission.AdmittedListsAreShort | api/v1alpha1/postgresgrant_webhook.go:142-168 | an accepted list has at most one entry or at most one less than there are valid ones |
| GrantAdmission.ValidPrivilegesAreWords | api/v1alpha1/postgresgrant_webhook.go:41-83 | every valid privilege is a single unquoted word |
| GrantAdmission.ValidPrivilegesApply | api/v1alpha1/postgresgrant_webhook.go:41-83 | the valid privileges of a kind of object are exactly those that apply to it by Table 5.2 (Summary of Access Privileges) of the PostgreSQL documentation |
| GrantController.ValidatedIsEmitted | api/v1alpha1/postgresgrant_types.go:93-108 | the field that is validated for a type is the field that is emitted for it |
| GrantController.AdmissionMakesGrantsParse | controllers/postgresgrant_controller.go:121-134 | for an accepted grant every statement parses back to exactly its privileges (ALL when none), identifier and role, and names only valid privileges |
| GrantController.GrantReconciler.ReconcileObjectGrants | controllers/postgresgrant_controller.go:115-150 | the statements of one type up to the first failure, continuing the stream |
| GrantController.GrantReconciler.Reconcile | controllers/postgresgrant_controller.go:58-113 | the stream over the five types in their fixed order, stopping at the first failure with a requeue; when an admitted grant is not requeued, exactly the grants its fields ask for have been recorded |
| GrantController.IssuesAPrefix | controllers/postgresgrant_controller.go:126-147 | what is issued is a prefix of the fixed stream, all of it when nothing failed |
| GrantController.StreamMeans | controllers/postgresgrant_controller.go:85-134 | the stream has one statement per table, sequence, function, schema and database, each with the privileges of its kind (ALL for none) to the role, and no other meaning |
| GrantController.GrantsAsAsked | controllers/postgresgrant_controller.go:85-103 | field by field: under any fates some of the grants asked for are recorded and no others; success is reported if and only if every statement was answered, and then all of them are recorded |
| GrantController.RetriesConverge | controllers/postgresgrant_controller.go:93-103 | after any failed attempts a clean one leaves exactly what a single clean one would, which is what the grant's fields ask for |

## Left out

- Interleavings.InterleavingsConverge: the rounds that end a gentle interleaving consist of reconciles that do not overlap; how many calls it takes while they do overlap is not bounded.
- Executions.ExecutionsConverge: takes up-to-date reads, known tables, non-empty table lists, standard-conforming strings and objects without foreign finalizers; an empty list on the alter path is refused by the server (PublicationSql.ReadSetNoTables).
- PublicationRefinement.AivenAgrees: what aiven_extras does with an empty table list is not in the repository, so it is a parameter of the model.
- GrantController.RetriesConverge: the catalog records accepted GRANT statements only; no claim is made that they take effect, as the text names no kind of object.
- Connecting: secrets, URLs and SetupPostgresConnection are one parameter, whether the connection comes about.
- Events, logging, metrics, requeue delays, leader election, controller and webhook registration.
- The lexer covers what the printers emit: no comments, no E'' strings, no case folding of keywords, and it takes an empty quoted identifier.
- PostgreSQL's truncation of identifiers to 63 bytes, and NOT NULL additions to tables that hold rows.
- Changing types, nullability or keys of existing columns, which the code does not attempt.
- Changing the name or the database reference of an existing publication resource.
- Namespaces: the store is that of one namespace.
- Failures of Get other than not-found in the config and publication controllers end the reconcile at once, like the not-found answer; the error is not told apart.
- YAML manifests, generated deep copies, RBAC and the test suites.
