# OmniKV in Dafny

This project models the parts of OmniKV above its storage files and proves what
they promise: committing write batches and reading them back, applying a Raft
log in capped chunks, crash replay and snapshots, two-phase commit, exact SUM
and AVG, hash joins and join planning under three-valued logic, pull iterators,
secondary indexes, staged SQL transactions, INSERT/UPDATE/DELETE, the row format
migration, the SQL tokenizer and the WHERE parser.

`dafny verify dfyconfig.toml` checks everything.

## How the files fit together

| file | what it holds |
|---|---|
| `Basics` | options, results, splitting and filtering sequences |
| `Storage` | write batches, numbered records, the engine's commit and reads |
| `Coalesce`, `RaftApply` | when merging log entries into one commit is invisible; the apply loop |
| `RaftReplay`, `RaftSnapshot` | step relations for crash replay and for snapshots under the apply lock |
| `TwoPhase` | coordinator, participants, messages and crashes as a step relation; both objects |
| `Decimal` | digit-string arithmetic, SUM and AVG |
| `HashJoin`, `Planner`, `Pushdown`, `JoinQuery`, `Resolve`, `Sql` | the join, the build-side choice, predicate pushdown, column lookup, WHERE |
| `Volcano` | row-at-a-time and chunked pulling |
| `IntegerFloats`, `IndexEncoding`, `SecondaryIndex`, `IndexRuns` | integers as floats, index keys, their order, and documents over whole runs |
| `SqlSession`, `SqlTables`, `Migration` | staged writes, DML on typed tables, legacy tables |
| `PkLookup` | reading by primary key compared with scanning |
| `Tokenizer`, `WhereParser` | tokens and WHERE trees, with their round trips |

## Where the code decides and the documentation says otherwise

* A `WriteBatch` holds its sets and its deletes in two lists, and a commit numbers
  all sets before all deletes (`crates/omnikv-engine/src/storage/core.rs:1964-2181`).
  Within one batch a delete therefore beats a set of the same key, whichever was
  called first. `crates/omnikv-engine/src/raft/raft_command.rs:80-82` says that a
  later operation replaces an earlier one. The model follows the code.
* Three promises fail because of it, and each is stated with its exact condition:
  merging log entries that delete a key and later set it loses the key
  (`Coalesce.MergeInvisibleIff`, `Coalesce.FinalDataIff`,
  `Coalesce.BatchingChangesTheData`), so replicas of one log agree under every
  batching, crash and snapshot exactly when the log never deletes a key and sets it
  again within fewer than 10,000 operations (`RaftReplay.ConvergesIff`); updating a
  document without changing an indexed tuple, old entries removed and new ones
  written in one batch, loses the entry until the next operation on the document
  (`IndexRuns.LostIff`, `IndexRuns.UnchangedUpdateVanishes`), and another document
  may then take its unique tuple (`IndexRuns.RewriteThenShare`); a two-phase
  participant applies writes in order only if none sets a deleted key again
  (`TwoPhase.AppliedWritesInOrderIff`).
* `abort` takes a transaction in any state, and a decision is visible before it is
  logged, so a commit and an abort of one transaction can both be on their way to the
  log. Aborting keeps a transaction atomic in every continuation exactly when its
  state is not `Committing` (`TwoPhase.AbortIsSafeIff`);
  `TwoPhase.AbortAfterCommitSplits` is a whole run that ends badly.
* Ids restart at 1 with a new coordinator. Beginning a transaction is safe in every
  continuation exactly when the recovery log holds no decision under its id and names
  nobody who was asked to prepare it (`TwoPhase.BeginIsSafeIff`): a decision misleads
  recovery, and an old request can replace the new writes at a participant.
  `TwoPhase.ReusedIdSplits` is a run over a crash in which an old abort splits a new
  commit.
* Recovery reports a transaction in doubt whether or not somebody still runs it.
  Answering with an abort is safe in every continuation exactly when the transaction is
  over: not being run towards a commit, and with no commit on its way to the log
  (`TwoPhase.RecoverIsSafeIff`). The two-phase theorems are about runs whose aborts,
  begins and recoveries meet these three conditions.
* A repeated prepare request is not told from a new one, so a repeated commit after
  it applies the writes again (`TwoPhase.AppliedAgainIff`, `TwoPhase.AppliedTwice`).
* The uniqueness check of an index does not see another document whose primary key is
  above the end mark of its scan, or whose text after its last NUL is the key being
  written (`IndexRuns.ViolatesIff`, `IndexRuns.MissedKeyShares`). Every run over a set of
  primary keys keeps entries unique exactly when no two of them are such a pair
  (`IndexRuns.KeysStayUniqueIff`); primary keys without NUL below the mark never are
  (`IndexRuns.PlainKeysSeen`).
* Duplicate checks of INSERT and UPDATE see the rows a table scan reaches, so a row
  written at a primary key above the end mark silently replaces what is stored there
  (`SqlTables.UnseenRowOverwritten`, `SqlTables.UnseenAfter`), and no scan finds it. A
  statement leaves the rows it is meant to exactly when a scan reaches every row it
  writes (`SqlTables.StatementMeansIff`).
* Reading one's own staged writes shows rows at primary keys a scan of the
  committed data would not show, and hides the empty primary key
  (`SqlSession.ReadYourWritesIff`, `SqlSession.RowAboveEndMarkVanishes`).
* Joining tokens with spaces and reading them again gives the same tokens, except
  that the last one is lost or split when the text has an odd number of quotes and
  what follows the opening one is no token (`Tokenizer.RelexSliceIff`).
* A statement that does not fit a transaction's cap fails with its first operations
  already staged (`SqlSession.FailedStageChanges`); exactly when it does not fit, and
  when it still changes nothing, are `SqlSession.StageFailsIff` and
  `SqlSession.FailedStageUnchangedIff`.
* An UPDATE of a legacy table migrates it in the same batch, but the rows it rewrites
  keep the spelling of a primary key it does not assign, where migrating first would
  have made it canonical (`Migration.LegacyMeantIff`, `Migration.OldSpellingStays`).
* A primary key is looked up by the canonical text of a literal. A literal that is no
  integer text but equals a stored INTEGER key as a float selects its row in a scan, and
  the lookup finds nothing (`PkLookup.FloatSpellingMisses`): lookup and scan agree on an
  INTEGER key exactly when the literal is an integer text or no row passes
  (`PkLookup.IntegerLookupIff`). A key above the end mark is found by the lookup alone
  (`PkLookup.LookupIsScanIff`).
* A float field reads an integer as the nearest float. Order is kept, but beyond 2 to the
  53 two integers can be one indexed value (`IntegerFloats.IntegersAsFloats`,
  `IndexEncoding.LargeIntegersMeet`).

## What is taken as given

Storage keys are compared by code points, which is the order of their UTF-8 bytes.
Comparison of a cell with a literal (number, text and LIKE), the canonical text of
a float, the JSON text of a row and which texts parse as floats are parameters; the
laws used of them (a row and a catalog entry are read back from their text,
canonical form is idempotent and does not move a key above the end mark of a scan)
are preconditions; those on canonical form are proved for INTEGER and for the types
kept verbatim. For primary-key lookups the printed form and the equality of floats are
parameters too; the empty text and a lone sign are no floats. `Migration.LegacyMeantIff`
takes a WHERE clause that does not tell a row from its canonical form. Table and column names hold no point, and the two tables of a join
differ ignoring ASCII case. Estimates are an arbitrary function of plans. Every
command of a replayed log fits a batch, as the engine's own cap on a proposed command
ensures.

## Model

| member | source | states |
|---|---|---|
| `Storage.DeletesWin` | crates/omnikv-engine/src/storage/core.rs:1964-2181 | the last operation a batch makes on a key is its delete if it has one, else its last set |
| `Storage.SameEffectIffSameLastOps` | crates/omnikv-engine/src/storage/core.rs:1964-2181 | two operation lists act alike on every database exactly when each key has the same last operation in both |
| `Storage.ReadsAreReplayedOps` | crates/omnikv-engine/src/storage/core.rs:2300-2422 | reading the newest visible version of a key equals replaying, in order, the operations numbered up to the read sequence |
| `Storage.SnapshotReadsAreStable` | crates/omnikv-engine/src/storage/core.rs:2300-2422 | a reader at the newest sequence keeps seeing exactly its data however many commits follow |
| `Storage.Engine.Commit` | crates/omnikv-engine/src/storage/core.rs:1931-2181 | the contents become the batch applied to the old ones; the marker is one past the batch's numbers and later numbers exceed it |
| `Storage.NumberRecords` | crates/omnikv-engine/src/storage/core.rs:2021-2090 | the loop numbers sets then deletes consecutively from the base |
| `Coalesce.MergeInvisibleIff` | crates/omnikv-engine/src/raft/raft_storage.rs:700-744 | on any database, one merged batch equals the writes committed one by one exactly when no key is deleted and later set without a further delete |
| `Coalesce.CutsWellFormed` | crates/omnikv-engine/src/raft/raft_storage.rs:745-861 | the commits are consecutive runs of whole entries, each within the cap, and no operation is left over |
| `Coalesce.EveryCommitIsAPrefixIff` | crates/omnikv-engine/src/raft/raft_storage.rs:646-861 | every intermediate commit is the state after a whole prefix of entries exactly when no commit resurrects a key |
| `Coalesce.FinalDataIff` | crates/omnikv-engine/src/raft/raft_storage.rs:646-861 | chunked apply ends with the data of one-by-one apply exactly when no key's last touching commit resurrects it |
| `Coalesce.BatchingChangesTheData` | crates/omnikv-engine/src/raft/raft_storage.rs:646-861 | a delete and a later set in one call lose the key that two calls keep, on every database |
| `Coalesce.EveryCallSafeIff` | crates/omnikv-engine/src/raft/raft_storage.rs:646-861 | no way of cutting a log into calls loses a key exactly when it never deletes a key and sets it again within one batch |
| `RaftApply.ReservedKeysKept` | crates/omnikv-engine/src/raft/raft_storage.rs:756-770 | whatever the entries and however many commits are made, the log's own keys keep their values |
| `RaftApply.AcceptedIff` | crates/omnikv-engine/src/raft/raft_storage.rs:745-828 | an entry is staged exactly when it decodes to a command of at least one operation on keys outside the log's own, or is the text `SET` with such a key, and then as exactly those operations |
| `RaftApply.StampedAnswers` | crates/omnikv-engine/src/raft/raft_storage.rs:745-858 | in an applied list, a marker answers exactly the entries that write, a rejection exactly the other normal ones, and nothing blank and membership entries |
| `RaftApply.OneEntry` | crates/omnikv-engine/src/raft/raft_storage.rs:646-861 | a single entry within the cap leaves its sets and then its deletes applied to the data, is answered with its marker and records its conflict record there |
| `RaftApply.SetHolds` | crates/omnikv-engine/src/raft/raft_storage.rs:796-815 | `SET k v` leaves `k` holding `v`, everything after the second space |
| `RaftApply.HistoryIff` | crates/omnikv-engine/src/raft/raft_storage.rs:716-744 | after any commits the history holds exactly the earlier records and those of the applied entries, each at its commit's marker, that are not below the oldest open snapshot or else the last marker |
| `RaftApply.PruneKeeps` | crates/omnikv-engine/src/raft/raft_storage.rs:738-741 | a prune keeps the records not below the floor, as often as they were there |
| `RaftApply.ResponseIsItsCommitsMarker` | crates/omnikv-engine/src/raft/raft_storage.rs:700-744 | an accepted entry's response is the marker of the commit that contains it, whatever later commits do |
| `RaftApply.Stage` | crates/omnikv-engine/src/raft/raft_storage.rs:770-828 | staging a command appends its sets and deletes or fails on the cap |
| `RaftApply.StateMachine.Flush` | crates/omnikv-engine/src/raft/raft_storage.rs:700-744 | a flush commits the staged batch, stamps its entries with the marker, records their history and prunes it; an empty one does nothing |
| `RaftApply.StateMachine.CommitChunked` | crates/omnikv-engine/src/raft/raft_storage.rs:385-413 | a batch over the cap, committed in chunks, leaves the data of committing it whole |
| `RaftApply.StateMachine.ReadEntry` | crates/omnikv-engine/src/raft/raft_storage.rs:745-828 | reading one entry keeps the loop's progress relation, flushing first exactly when the entry would fill the batch |
| `RaftApply.StateMachine.Apply` | crates/omnikv-engine/src/raft/raft_storage.rs:646-861 | succeeds exactly when every accepted command fits the cap; then data, sequence, history and responses are those of the cuts over what the entries write, every entry is answered as `StampedAnswers` says, a single one leaves what `OneEntry` says, and the pointer passes every entry, rejected ones too; on failure everything before the offending command is committed and the pointer stays |
| `RaftReplay.RunInvariant` | crates/omnikv-engine/src/raft/raft_storage.rs:829-858 | over every apply, commit, pointer move, crash, capture and install, with calls cut anywhere: data is that of the commits made, and nothing before the pointer is newer than the last commit that touched its keys |
| `RaftReplay.ReplicaKeyIff` | crates/omnikv-engine/src/raft/raft_storage.rs:829-858 | in every run a key holds its value in the log exactly when the last commit that touched it there does not resurrect it, and is missing otherwise |
| `RaftReplay.ReplayConverges` | crates/omnikv-engine/src/raft/raft_storage.rs:829-858 | a caught-up replica holds exactly the log's data if and only if that holds of every key |
| `RaftReplay.ReplicasAgreeIff` | crates/omnikv-engine/src/raft/raft_storage.rs:646-861 | two replicas at one pointer agree on a key exactly when both or neither lost it, however they batched, crashed and replayed |
| `RaftReplay.CrashReplays` | crates/omnikv-engine/src/raft/raft_storage.rs:829-858 | from any state, a call cut off by a crash after any number of its commits and taken again from the saved pointer makes those commits twice |
| `RaftReplay.DivergingRun` | crates/omnikv-engine/src/raft/raft_storage.rs:646-861 | from any log that deletes a key and sets it within one batch, a run of two replicas that end at one saved pointer with different data |
| `RaftReplay.ConvergesIff` | crates/omnikv-engine/src/raft/raft_storage.rs:646-861 | every run leaves caught-up replicas with the log's data, and alike, exactly for the logs without such a pair |
| `RaftReplay.SnapshotCatchesUpIff` | crates/omnikv-engine/src/raft/raft_storage.rs:297-334 | a snapshot whose data is ahead of its pointer reaches the log's data once the suffix is applied exactly when no last touching commit, its own or the call's, resurrects its key |
| `RaftReplay.InstallCopies` | crates/omnikv-engine/src/raft/raft_storage.rs:1143-1159 | in every run a replica that installs a snapshot then holds the data, and stands at the pointer, saved, of the replica it was captured from at that moment |
| `RaftSnapshot.RunInvariant` | crates/omnikv-engine/src/raft/raft_storage.rs:253-342 | what every interleaving of applies, pruning, snapshot building and installing keeps |
| `RaftSnapshot.SnapshotsArePaired` | crates/omnikv-engine/src/raft/raft_storage.rs:253-342 | every snapshot holds a transaction's data exactly when its record was made, carries each such record unless its marker is below a pruning floor, and carries no marker at or above its maximum |
| `RaftSnapshot.MarkersExceedHistory` | crates/omnikv-engine/src/raft/raft_storage.rs:700-744 | in every run a commit's marker exceeds every marker in its node's history |
| `RaftSnapshot.LaterMarkersExceedCarried` | crates/omnikv-engine/src/raft/raft_storage.rs:1175-1196 | in every run, after a node installs a snapshot, the marker of every later commit on it exceeds every marker the snapshot carried, pruned since or not |
| `RaftSnapshot.InstallCopies` | crates/omnikv-engine/src/raft/raft_storage.rs:1143-1196 | in every run a node that installs a snapshot then holds the data and the history the building node held when it was finished, with no commit under way, and numbers what follows above everything numbered there |
| `TwoPhase.RunInvariant` | crates/omnikv-engine/src/runtime/dist_txn.rs:213-338 | what every call, delivery and crash of a careful run keeps |
| `TwoPhase.Atomicity` | crates/omnikv-engine/src/runtime/dist_txn.rs:213-338 | in every careful run no transaction is applied at one participant and discarded at another |
| `TwoPhase.AppliedIsWhatWasBuffered` | crates/omnikv-engine/src/runtime/dist_txn.rs:510-612 | in every careful run what a participant applies for a committing transaction is what was buffered for it |
| `TwoPhase.AppliedIsWhatWasAdded` | crates/omnikv-engine/src/runtime/dist_txn.rs:178-239 | in every careful run, what is buffered for a participant, what it is asked to prepare, holds prepared and applies is the writes added for it since the transaction began, all and in order, merged where held or applied |
| `TwoPhase.DataIsWhatWasApplied` | crates/omnikv-engine/src/runtime/dist_txn.rs:589-612 | in every run a participant's data is its first data with the batches it applied committed in order |
| `TwoPhase.CommitIsNeverLost` | crates/omnikv-engine/src/runtime/dist_txn.rs:242-297 | once a commit is logged, every participant has applied it or still holds it prepared |
| `TwoPhase.RecoveryAgreesWithDecisions` | crates/omnikv-engine/src/runtime/dist_txn.rs:396-434 | recovery's answer agrees with every decision already sent, and conflicting decisions are never sent |
| `TwoPhase.RecoveryNamesParticipants` | crates/omnikv-engine/src/runtime/dist_txn.rs:396-434 | in every careful run recovery's COMMIT answer names exactly the nodes the transaction has writes for, and a PREPARE answer those or, where nothing was prepared, nobody |
| `TwoPhase.AppliedWritesInOrderIff` | crates/omnikv-engine/src/runtime/dist_txn.rs:510-613 | a participant's commit equals its writes in order exactly when no deleted key is set again |
| `TwoPhase.AppliedAgainIff` | crates/omnikv-engine/src/runtime/dist_txn.rs:510-630 | over any list of calls a participant applies an id again exactly when a commit follows a prepare that nothing has ended |
| `TwoPhase.AppliedTwice` | crates/omnikv-engine/src/runtime/dist_txn.rs:510-612 | a prepare that arrives again after the commit, and the commit again, apply a transaction twice |
| `TwoPhase.AbortIsSafeIff` | crates/omnikv-engine/src/runtime/dist_txn.rs:315-338 | an abort leaves a transaction atomic in every careful continuation exactly when it is not committing |
| `TwoPhase.AbortSplits` | crates/omnikv-engine/src/runtime/dist_txn.rs:271-275 | the abort of a committing transaction can leave it applied at any participant and discarded at any other |
| `TwoPhase.AbortAfterCommitSplits` | crates/omnikv-engine/src/runtime/dist_txn.rs:315-338 | a whole run: both vote to commit, an abort comes while the commit is not yet logged, one applies and one discards |
| `TwoPhase.BeginIsSafeIff` | crates/omnikv-engine/src/runtime/dist_txn.rs:156-176 | a begun transaction stays atomic, applied as buffered and found by recovery in every careful continuation exactly when the log has no decision under its id and names nobody asked |
| `TwoPhase.ReusedIdSplits` | crates/omnikv-engine/src/runtime/dist_txn.rs:145-176 | a whole run over a crash: the reused id's old abort reaches one participant of the new commit |
| `TwoPhase.RecoverIsSafeIff` | crates/omnikv-engine/src/runtime/dist_txn.rs:385-434 | answering a transaction in doubt with an abort leaves it atomic in every careful continuation exactly when nobody runs it towards a commit and no commit of it is being logged |
| `TwoPhase.RecoverSplits` | crates/omnikv-engine/src/runtime/dist_txn.rs:385-434 | such an abort sent to one participant of a transaction that is not over lets it discard while any participant, another one too, applies |
| `TwoPhase.TwoPhaseCoordinator.Begin` | crates/omnikv-engine/src/runtime/dist_txn.rs:156-176 | hands out the next id and adds an empty transaction, as the step relation assumes |
| `TwoPhase.TwoPhaseCoordinator.AddWrite` | crates/omnikv-engine/src/runtime/dist_txn.rs:178-209 | appends a write of a preparing transaction to what is buffered for its node, leaving other nodes and transactions alone, and refuses others unchanged; `AppliedIsWhatWasAdded` follows the writes from there |
| `TwoPhase.TwoPhaseCoordinator.Prepare` | crates/omnikv-engine/src/runtime/dist_txn.rs:213-239 | logs the participants before waiting for votes and returns them |
| `TwoPhase.TwoPhaseCoordinator.ReceiveVote` | crates/omnikv-engine/src/runtime/dist_txn.rs:242-297 | decides and logs once exactly the participants have voted |
| `TwoPhase.TwoPhaseCoordinator.FinalizeCommit` | crates/omnikv-engine/src/runtime/dist_txn.rs:300-312 | forgets the transaction and nothing else |
| `TwoPhase.TwoPhaseCoordinator.Abort` | crates/omnikv-engine/src/runtime/dist_txn.rs:315-338 | logs the abort whatever the state, forgets the transaction and returns its participants |
| `TwoPhase.TwoPhaseCoordinator.Recover` | crates/omnikv-engine/src/runtime/dist_txn.rs:396-434 | lists each transaction that needs action exactly once, with the answer the theorems are about |
| `TwoPhase.TwoPhaseParticipant.Prepare` | crates/omnikv-engine/src/runtime/dist_txn.rs:510-586 | votes commit exactly when the writes fit one batch, and then holds them as one |
| `TwoPhase.TwoPhaseParticipant.Commit` | crates/omnikv-engine/src/runtime/dist_txn.rs:589-612 | applies a prepared batch once; without one it fails and changes nothing |
| `TwoPhase.TwoPhaseParticipant.Abort` | crates/omnikv-engine/src/runtime/dist_txn.rs:615-630 | discards a prepared batch; without one it changes nothing |
| `Decimal.AddAbs` | crates/omnikv-engine/src/query/volcano.rs:1510-1534 | the digit loop denotes the sum, and is canonical on canonical operands |
| `Decimal.CompareAbsIsNumeric` | crates/omnikv-engine/src/query/volcano.rs:1536-1540 | comparing without leading zeros, by length then text, is comparing the numbers |
| `Decimal.SubAbs` | crates/omnikv-engine/src/query/volcano.rs:1543-1570 | the borrow loop denotes the difference, stays within digits, owes nothing at the end and is canonical |
| `Decimal.NormalizedValue` | crates/omnikv-engine/src/query/volcano.rs:1572-1583 | sign and trimmed digits denote the text's number |
| `Decimal.AddSigned` | crates/omnikv-engine/src/query/volcano.rs:1585-1616 | the canonical text of the sum of two integer texts of any width |
| `Decimal.CanonicalUnique` | crates/omnikv-engine/src/query/volcano.rs:1572-1583 | an integer has one canonical text, and zero is not written with a minus |
| `Decimal.Sum` | crates/omnikv-engine/src/query/volcano.rs:1717-1726 | the fold denotes exactly the mathematical total, in canonical form |
| `Decimal.SumIgnoresOrder` | crates/omnikv-engine/src/query/volcano.rs:1717-1726 | any order of the rows gives the same text |
| `Decimal.LongDivide` | crates/omnikv-engine/src/query/volcano.rs:1621-1645 | canonical quotient and a remainder below the divisor |
| `Decimal.FractionDigits` | crates/omnikv-engine/src/query/volcano.rs:1647-1652 | the digits of the fraction until nothing remains or fifteen are written |
| `Decimal.RoundUp` | crates/omnikv-engine/src/query/volcano.rs:1654-1671 | adds one unit of the last place, carrying into the quotient on nines |
| `Decimal.AvgDecimal` | crates/omnikv-engine/src/query/volcano.rs:1621-1689 | the canonical decimal of sum over count rounded half away from zero at fifteen places |
| `Decimal.RoundDivIsNearest` | crates/omnikv-engine/src/query/volcano.rs:1654-1671 | the rounded value is the one integer whose doubled error is at most the divisor, ties away from zero |
| `Decimal.TerminatingIsExact` | crates/omnikv-engine/src/query/volcano.rs:1647-1652 | a quotient that ends within fifteen places is exact |
| `Decimal.CanonicalDecimalUnique` | crates/omnikv-engine/src/query/volcano.rs:1672-1689 | a decimal has one canonical text, never minus zero |
| `Decimal.ComputeAggregate` | crates/omnikv-engine/src/query/volcano.rs:1691-1757 | NULL over no values, exact SUM and AVG exactly when every value is an integer text |
| `HashJoin.BuildTable` | crates/omnikv-engine/src/query/volcano.rs:743-762 | each bucket holds the build rows of its key in order, NULL keys apart |
| `HashJoin.CollectUnmatched` | crates/omnikv-engine/src/query/volcano.rs:824-843 | in any table order, the build rows of unmatched and NULL keys, each once |
| `HashJoin.ExecHashJoin` | crates/omnikv-engine/src/query/plan_exec.rs:371-454 | the loop returns, as a bag, exactly what the join denotes |
| `HashJoin.HashJoinIter.constructor` | crates/omnikv-engine/src/query/volcano.rs:732-781 | before the first call everything the join denotes is due |
| `HashJoin.HashJoinIter.Next` | crates/omnikv-engine/src/query/volcano.rs:799-883 | each call gives one row still due and no other; none exactly when nothing is due |
| `HashJoin.Drain` | crates/omnikv-engine/src/query/volcano.rs:88-94 | draining the iterator gives the same bag as the loop |
| `Planner.BuildSideIsFree` | crates/omnikv-engine/src/query/optimizer.rs:671-730 | hashing either side, with the join type flipped, gives the bag of matches plus the preserved side's rows without one |
| `Planner.Transpose` | crates/omnikv-engine/src/query/optimizer.rs:671-730 | matches grouped by left rows and by right rows are one bag |
| `Resolve.CombinedLookup` | crates/omnikv-engine/src/query/volcano.rs:1318-1332 | a joined row reads every name as the side it is bound to does, an absent side as NULL |
| `Resolve.CombinedTypes` | crates/omnikv-engine/src/query/volcano.rs:1336-1351 | the type of a name on a join is that of the side it is bound to |
| `Resolve.IgnoreCaseIff` | crates/omnikv-engine/src/query/volcano.rs:1318-1332 | table names agree exactly when they differ at most in the case of ASCII letters |
| `Sql.EvalAgrees` | crates/omnikv-engine/src/query/volcano.rs:1376-1436 | a predicate's truth value depends only on the columns it names |
| `Sql.EvalIff` | crates/omnikv-engine/src/query/volcano.rs:1376-1452 | a predicate evaluates to true exactly when it holds and to false exactly when it is refuted, each defined on its own: OR true by one side and false by both, NOT swapping them, IN true by a non-NULL element and refuted only without NULLs |
| `Sql.EvalIn` | crates/omnikv-engine/src/query/volcano.rs:1408-1431 | the loop over the elements computes that value |
| `Sql.EvalClassical` | crates/omnikv-engine/src/query/volcano.rs:1376-1452 | over cells and literals without NULL the value is the ordinary truth value, never unknown |
| `Sql.FillingKeepsKnown` | crates/omnikv-engine/src/query/volcano.rs:1376-1452 | for predicates without NULL tests, filling in a NULL cell never changes a known value |
| `Sql.ConjunctsTrue` | crates/omnikv-engine/src/query/optimizer.rs:442-451 | under three-valued logic a WHERE selects a row exactly when all its conjuncts do |
| `Sql.AndAllTrue` | crates/omnikv-engine/src/query/optimizer.rs:454-464 | so does the conjunction rebuilt from any of them |
| `Sql.ConjunctsToExpr` | crates/omnikv-engine/src/query/optimizer.rs:454-464 | the loop builds that conjunction, and none of no parts |
| `Pushdown.PushdownIsSound` | crates/omnikv-engine/src/query/optimizer.rs:632-666 | dropping rows of inner and preserved sides first, when no selected outcome holds a dropped row, changes nothing the filter keeps |
| `JoinQuery.JoinedRowMeans` | crates/omnikv-engine/src/query/volcano.rs:1318-1332 | whichever side is hashed, each admissible column of a joined row reads as the query means it |
| `JoinQuery.ScanKeepsIff` | crates/omnikv-engine/src/query/optimizer.rs:469-483 | each scan keeps exactly the rows that make true every conjunct that names columns, all qualified by its table, unless the join preserves the other side |
| `JoinQuery.SmallerIsHashed` | crates/omnikv-engine/src/query/optimizer.rs:671-730 | the hashed side has the smaller estimate |
| `JoinQuery.SelectedPassesScan` | crates/omnikv-engine/src/query/optimizer.rs:469-483 | a row of a selected outcome passes the conjuncts pushed to its own scan |
| `JoinQuery.JoinCounts` | crates/omnikv-engine/src/query/volcano.rs:1223-1259 | how often each joined row occurs in the join: a pair as often as both are stored if both keys are there, not NULL and of one canonical text; a row of a preserved side as often as stored if no row of the other side has its key |
| `JoinQuery.MatchIff` | crates/omnikv-engine/src/query/volcano.rs:1254-1259 | a pair is joined exactly when both rows are stored and their keys are such |
| `JoinQuery.NullKeyJoinsNothing` | crates/omnikv-engine/src/query/volcano.rs:743-762 | a row with a NULL key joins nothing, and the preserved side keeps it once for every time it is stored |
| `JoinQuery.AnswerCounts` | crates/omnikv-engine/src/query/volcano.rs:1376-1452 | the query's answer holds each joined row that often if WHERE holds of it, and not at all otherwise |
| `JoinQuery.PlanComputesQuery` | crates/omnikv-engine/src/query/optimizer.rs:553-730 | for every query and every estimate the plan's rows are, as a bag, the unplanned join filtered by the whole WHERE, each joined row as often as `JoinCounts` says where WHERE holds of it |
| `Volcano.NextRow` | crates/omnikv-engine/src/query/volcano.rs:440-447 | gives the first row still denoted, or none exactly when none is left |
| `Volcano.NextChunk` | crates/omnikv-engine/src/query/volcano.rs:267-276 | gives a piece of at most k rows, empty only if k is zero or nothing is left |
| `Volcano.FilterChunk` | crates/omnikv-engine/src/query/volcano.rs:464-487 | a filter's chunk drops no matching row and fetches no more than it can hand on |
| `Volcano.Drive` | crates/omnikv-engine/src/query/volcano.rs:46-104 | any mix of row and chunk calls emits consecutive pieces of the one sequence the pipeline denotes |
| `IndexEncoding.EscapeBytes` | crates/omnikv-engine/src/query/secondary_index.rs:136-150 | the loop escapes every zero byte |
| `IndexEncoding.EscapeOrder` | crates/omnikv-engine/src/query/secondary_index.rs:136-150 | escaping keeps order, prefixes and differences of strings |
| `IndexEncoding.HexOrder` | crates/omnikv-engine/src/query/secondary_index.rs:216-218 | so does hexadecimal of bytes |
| `IndexEncoding.HexDigitsOf` | crates/omnikv-engine/src/query/secondary_index.rs:216-218 | each byte is two digits, the high one first |
| `IndexEncoding.BigEndianOrder` | crates/omnikv-engine/src/query/secondary_index.rs:151-157 | big-endian bytes order as their numbers |
| `IntegerFloats.NearestFloat` | crates/omnikv-engine/src/query/secondary_index.rs:158-168 | the float an integer becomes is within half a unit of its last place |
| `IntegerFloats.IntegersAsFloats` | crates/omnikv-engine/src/query/secondary_index.rs:158-168 | integers in a float field keep their order, and distinct ones up to 2 to the 53 stay distinct |
| `IndexEncoding.LargeIntegersMeet` | crates/omnikv-engine/src/query/secondary_index.rs:158-168 | 2 to the 53 and the next integer have one encoding in a float field |
| `IndexEncoding.WrongTypeIsDefault` | crates/omnikv-engine/src/query/secondary_index.rs:134-170 | a value of the wrong type is indexed as the empty string, zero or positive zero |
| `IndexEncoding.EncodeOrder` | crates/omnikv-engine/src/query/secondary_index.rs:134-170 | encodings order as values do: strings by bytes, integers by value, floats, and integers read as floats, by totalOrder of section 5.10 of IEEE 754-2008; equal only if the type sees one value |
| `SecondaryIndex.BuildIndexKey` | crates/omnikv-engine/src/query/secondary_index.rs:175-189 | the loop builds prefix, separated values and primary key |
| `SecondaryIndex.PadTextIs` | crates/omnikv-engine/src/query/secondary_index.rs:175-178 | an index id is written in decimal, with leading zeros only up to eight digits |
| `SecondaryIndex.KeyUnique` | crates/omnikv-engine/src/query/secondary_index.rs:175-189 | a key determines its index, values and primary key |
| `SecondaryIndex.LookupScans` | crates/omnikv-engine/src/query/secondary_index.rs:440-481 | an exact scan meets an entry exactly when index and values agree and the primary key is below the end mark |
| `SecondaryIndex.HexFollowed` | crates/omnikv-engine/src/query/secondary_index.rs:485-524 | how an entry compares with the two ends of a range scan, in terms of bytes |
| `IndexRuns.IndexDocument` | crates/omnikv-engine/src/query/secondary_index.rs:335-396 | adds exactly the document's entries, refuses a unique tuple held by another key the check sees, and fails on size only when the entries exceed the cap |
| `IndexRuns.RemoveDocumentIndexes` | crates/omnikv-engine/src/query/secondary_index.rs:401-437 | deletes exactly the document's entries, and fails exactly when they exceed the cap |
| `IndexRuns.RunInvariant` | crates/omnikv-engine/src/query/secondary_index.rs:335-437 | over every run the stored entries are those of the documents less the ones lost to an update that kept them |
| `IndexRuns.LostIff` | crates/omnikv-engine/src/query/secondary_index.rs:335-437 | after any run an entry of a document is missing exactly when the last accepted operation on the document was an update that left the entry as it was |
| `IndexRuns.LookupExact` | crates/omnikv-engine/src/query/secondary_index.rs:440-481 | after any run a lookup returns exactly the keys below the end mark whose fields equal the tuple and whose last accepted operation was not such an update |
| `IndexRuns.UnchangedUpdateVanishes` | crates/omnikv-engine/src/query/secondary_index.rs:335-437 | writing a document back as it is removes it from every lookup |
| `IndexRuns.ViolatesIff` | crates/omnikv-engine/src/query/secondary_index.rs:366-390 | a stored entry of the tuple that the uniqueness check lets pass is above the end mark of its scan, or has the key being written after its last NUL |
| `IndexRuns.UniqueHolds` | crates/omnikv-engine/src/query/secondary_index.rs:366-390 | throughout a run a unique index holds at most one key for a tuple exactly when no accepted operation brings one that is stored for another key |
| `IndexRuns.SeenKeysNeverSlip` | crates/omnikv-engine/src/query/secondary_index.rs:366-390 | runs over primary keys of which the check misses none when writing another never do |
| `IndexRuns.PlainKeysSeen` | crates/omnikv-engine/src/query/secondary_index.rs:366-390 | primary keys without NUL below the end mark are such |
| `IndexRuns.MissedKeyShares` | crates/omnikv-engine/src/query/secondary_index.rs:366-390 | a key the check misses, for either reason, and the one being written come to hold one unique tuple |
| `IndexRuns.KeysStayUniqueIff` | crates/omnikv-engine/src/query/secondary_index.rs:366-390 | every run over a set of primary keys keeps entries unique exactly when the check misses none of them when writing another |
| `IndexRuns.DocsUniqueIff` | crates/omnikv-engine/src/query/secondary_index.rs:366-390 | documents stay unique throughout a run exactly when no accepted operation brings a unique tuple that another document holds and whose entry an update lost or the check misses |
| `IndexRuns.RewriteThenShare` | crates/omnikv-engine/src/query/secondary_index.rs:335-437 | put, the same document again under a key without NUL, then another key with it: two documents share a unique tuple |
| `IndexRuns.RangeExact` | crates/omnikv-engine/src/query/secondary_index.rs:485-524 | after any run a range scan returns exactly the keys whose value is in range, and for strings also those that extend the end, less those lost the same way |
| `SqlSession.Stage` | crates/omnikv-engine/src/query/sql_exec.rs:339-364 | folds in exactly the operations before the first without room, succeeds exactly when there is none, and then has the effect of committing the batch later |
| `SqlSession.FoldEffect` | crates/omnikv-engine/src/query/sql_exec.rs:343-362 | the fold does to each key what the operations folded in do to it |
| `SqlSession.StageFailsIff` | crates/omnikv-engine/src/query/sql_exec.rs:343-362 | with each key named once on both sides, a statement does not fit exactly when the keys of both, and once more those deleted in both, exceed the cap |
| `SqlSession.FailedStageUnchangedIff` | crates/omnikv-engine/src/query/sql_exec.rs:343-362 | a failed statement leaves the transaction as it was exactly when no operation before the first without room changes what is pending for its key |
| `SqlSession.FailedStageChanges` | crates/omnikv-engine/src/query/sql_exec.rs:343-362 | one short of the cap, two new keys: the statement fails and its first write stays staged |
| `SqlSession.Session.StageOrCommit` | crates/omnikv-engine/src/query/sql_exec.rs:339-371 | commits at once outside a transaction; inside one stages as `Stage` does, without touching the data |
| `SqlSession.Session.FlushBatch` | crates/omnikv-engine/src/query/sql_exec.rs:330-332 | hands out what is pending, once; committing it is committing the staged batches in order |
| `SqlSession.PendingOverlay` | crates/omnikv-engine/src/query/sql_exec.rs:374-391 | the overlay says of each key what committing the pending batch would |
| `SqlSession.LoadRows` | crates/omnikv-engine/src/query/sql_exec.rs:998-1036 | the rows seen are the stored ones not covered and the overlay's own of this table, each key once |
| `SqlSession.ReadYourWritesIff` | crates/omnikv-engine/src/query/volcano.rs:162-238 | reading through the overlay shows what committing would exactly when every staged row is at a scannable key |
| `SqlSession.RowAboveEndMarkVanishes` | crates/omnikv-engine/src/query/sql_exec.rs:998-1036 | a staged row whose primary key is above the end mark is shown inside the transaction and gone once committed |
| `SqlSession.ScannableIff` | crates/omnikv-engine/src/query/sql_exec.rs:998-1020 | a key is scannable exactly when its primary key is not empty and not above the end mark |
| `SqlSession.FlushCommitsAll` | crates/omnikv-engine/src/query/sql_exec.rs:330-332 | committing the flushed batch is committing the statements in order |
| `SqlSession.TransactionReadsItsWrites` | crates/omnikv-engine/src/query/sql_exec.rs:998-1036 | inside a transaction a table's rows are, as a bag, those a scan finds once its statements are committed in turn, under the same condition |
| `SqlTables.CanonIntegerIdempotent` | crates/omnikv-engine/src/query/catalog.rs:62-74 | the canonical form of an integer key is its own canonical form |
| `SqlTables.CanonIntegerIff` | crates/omnikv-engine/src/query/catalog.rs:62-74 | integer texts share a canonical form exactly when they are one number |
| `SqlTables.CanonIntegerKeepsBelow` | crates/omnikv-engine/src/query/catalog.rs:62-74 | canonical integers stay below the end mark of a table scan |
| `SqlTables.VerbatimKeepsBelow` | crates/omnikv-engine/src/query/catalog.rs:62-74 | the types kept verbatim obey both laws of canonical form |
| `SqlTables.ExecInsert` | crates/omnikv-engine/src/query/sql_exec.rs:876-992 | one write per row at fresh distinct keys, or the reason there can be none |
| `SqlTables.InsertSucceedsIff` | crates/omnikv-engine/src/query/sql_exec.rs:940-982 | an INSERT succeeds exactly when every row has a primary key that is neither NULL nor empty, no two share a canonical one, none is taken and the rows fit one batch |
| `SqlTables.ExecUpdate` | crates/omnikv-engine/src/query/sql_exec.rs:2068-2186 | rewritten rows at distinct keys free of untouched rows, the moved keys deleted, or the reason it is refused |
| `SqlTables.UpdateSucceedsIff` | crates/omnikv-engine/src/query/sql_exec.rs:2068-2186 | an UPDATE succeeds exactly when all rows have keys before and after, written rows share none among themselves or with untouched ones, and rewritten rows and moved keys fit one batch |
| `SqlTables.ExecDelete` | crates/omnikv-engine/src/query/sql_exec.rs:2190-2244 | one delete per selected row, at its key |
| `SqlTables.DeletesAtKeys` | crates/omnikv-engine/src/query/sql_exec.rs:2218-2230 | a DELETE fails exactly on size and deletes at the canonical form of each selected row's key, the empty text standing for a missing one |
| `SqlTables.UpdateMoves` | crates/omnikv-engine/src/query/sql_exec.rs:2139-2176 | no updated row is written where the same batch deletes |
| `SqlTables.StatementLeaves` | crates/omnikv-engine/src/query/sql_exec.rs:876-992 | a successful statement leaves the untouched rows and the written ones a scan reaches, each at its own canonical key |
| `SqlTables.StatementMeansIff` | crates/omnikv-engine/src/query/sql_exec.rs:998-1020 | it leaves exactly the rows it is meant to if and only if a scan reaches every row it writes |
| `SqlTables.WithinScanReaches` | crates/omnikv-engine/src/query/sql_exec.rs:998-1020 | which it does when the statement names no primary key above the end mark |
| `SqlTables.UnseenAfter` | crates/omnikv-engine/src/query/sql_exec.rs:915-982 | a key above the end mark holds the row a statement writes there, whatever it held, and is otherwise as it was |
| `SqlTables.UnseenRowOverwritten` | crates/omnikv-engine/src/query/sql_exec.rs:915-982 | INSERT at such a key succeeds over a stored row and replaces it |
| `SqlTables.StatementCounts` | crates/omnikv-engine/src/query/sql_exec.rs:2068-2186 | INSERT adds its rows, UPDATE keeps the number, DELETE takes the selected ones, less the written rows no scan reaches |
| `SqlTables.ExecStatement` | crates/omnikv-engine/src/query/sql_exec.rs:876-992 | a refused statement touches neither the database nor what is staged; an accepted one commits or stages its batch, which is the step the runs take |
| `SqlTables.RunKeepsTyped` | crates/omnikv-engine/src/query/sql_exec.rs:2068-2244 | over every run, failed statements included, each row stays at its own canonical key |
| `Migration.MigrationBatch` | crates/omnikv-engine/src/query/sql_exec.rs:790-874 | answers a missing table, an undecodable row, two keys with one canonical form or a full batch each only where that is so, and else the batch; a table recorded as typed needs nothing |
| `Migration.MigratesIff` | crates/omnikv-engine/src/query/sql_exec.rs:790-874 | a legacy table migrates exactly when every row decodes, no two keys share a canonical form and its operations fit one batch |
| `Migration.SecondMigrationIsEmpty` | crates/omnikv-engine/src/query/sql_exec.rs:766-804 | once a migration is committed the catalog reads as typed, and migrating again changes nothing |
| `Migration.TypedDecodesRaw` | crates/omnikv-engine/src/query/plan_exec.rs:285-301 | the typed format reads a stored row as it is |
| `Migration.CanonNotDeleted` | crates/omnikv-engine/src/query/sql_exec.rs:843-866 | the migration never deletes a canonical key |
| `Migration.MigrationKeepsTable` | crates/omnikv-engine/src/query/sql_exec.rs:790-874 | a scan afterwards finds, read as typed, the legacy rows with canonical keys, one for one, and nothing else; cell by cell, the text NULL has become the SQL NULL and every other cell but the key is as it was |
| `Migration.MigrationMakesTyped` | crates/omnikv-engine/src/query/sql_exec.rs:790-874 | a legacy table stored under its own keys becomes one the DML statements keep typed |
| `Migration.TogetherIsInTurn` | crates/omnikv-engine/src/query/sql_exec.rs:930-939 | although deletes win in the one batch, committing migration and statement together is committing them in turn |
| `Migration.LegacyStatementMeans` | crates/omnikv-engine/src/query/sql_exec.rs:876-992 | INSERT, UPDATE and DELETE on a legacy table leave a typed table, and the untouched rows in canonical form with the written ones exactly when a scan reaches every written row |
| `Migration.LegacyMeantIff` | crates/omnikv-engine/src/query/sql_exec.rs:2120-2177 | those are the rows of migrating first and then running the statement exactly when it rewrites no row whose key keeps a spelling that is not canonical |
| `Migration.OldSpellingStays` | crates/omnikv-engine/src/query/sql_exec.rs:2137-2176 | an UPDATE that does not assign the key keeps any such spelling of an INTEGER key |
| `PkLookup.ExtractedHolds` | crates/omnikv-engine/src/query/optimizer.rs:794-818 | a predicate that selects a row makes the extracted key equality true of it |
| `PkLookup.ExtractsFirst` | crates/omnikv-engine/src/query/optimizer.rs:794-818 | a lookup is chosen exactly when some conjunct equates the key with a literal, and it is the first such conjunct |
| `PkLookup.NamesKeyIff` | crates/omnikv-engine/src/query/optimizer.rs:803-810 | the key may be named alone or with its table, in any case, and not with another table |
| `PkLookup.BareNameIff` | crates/omnikv-engine/src/query/optimizer.rs:803-810 | the bare part of a name is what follows its last point |
| `PkLookup.EqualMeans` | crates/omnikv-engine/src/query/volcano.rs:1223-1236 | what equals a literal: its own text in a column compared as text, its number for an integer cell of a numeric one |
| `PkLookup.LookupIsScanIff` | crates/omnikv-engine/src/query/plan_exec.rs:227-279 | where equal means the same key, looking up and filtering gives what scanning and filtering gives exactly when the key is not above the end mark or no row there passes |
| `PkLookup.FirstIsEnough` | crates/omnikv-engine/src/query/volcano.rs:282-366 | the iterator that reads only the first row of the range finds the same |
| `PkLookup.TextKeys` | crates/omnikv-engine/src/query/volcano.rs:1223-1236 | for keys kept verbatim, equal means the same key |
| `PkLookup.IntegerKeys` | crates/omnikv-engine/src/query/volcano.rs:1482-1492 | and for INTEGER keys when the stored keys and the literal are integer texts |
| `PkLookup.NothingInRange` | crates/omnikv-engine/src/query/plan_exec.rs:249-271 | no stored INTEGER key lies in the range looked up for a literal that is no integer text |
| `PkLookup.IntegerLookupIff` | crates/omnikv-engine/src/query/plan_exec.rs:227-279 | for an INTEGER key, lookup then filter equals scan then filter exactly when the literal is an integer text or no row passes; for other literals the lookup gives nothing |
| `PkLookup.FloatSpellingMisses` | crates/omnikv-engine/src/query/volcano.rs:1482-1492 | a row whose stored integer equals the literal only as a float is in the filtered scan, and the filtered lookup is empty |
| `PkLookup.SafeAccessScans` | crates/omnikv-engine/src/query/optimizer.rs:733-790 | where nothing passes, or the literal equals only its own key and that key is in scan range or holds no row that passes, the chosen lookup hands on what the scan would |
| `PkLookup.LookupPlanComputesQuery` | crates/omnikv-engine/src/query/optimizer.rs:632-790 | a join plan with the lookups the planner chooses still yields, as a bag, the unplanned join filtered by the whole WHERE, where those lookups are such |
| `Tokenizer.Tokenize` | crates/omnikv-engine/src/query/sql.rs:487-563 | the loop with one character of lookahead computes the token sequence of the grammar |
| `Tokenizer.LexShape` | crates/omnikv-engine/src/query/sql.rs:487-563 | every finished token is a word, a closed string or a symbol |
| `Tokenizer.BlankSplits` | crates/omnikv-engine/src/query/sql.rs:487-563 | outside a string a blank separates: the tokens of both sides, and nothing for the blank |
| `Tokenizer.PunctuationSplits` | crates/omnikv-engine/src/query/sql.rs:515-520 | a parenthesis, comma or star outside a string is a token between those of both sides |
| `Tokenizer.OperatorSplits` | crates/omnikv-engine/src/query/sql.rs:521-549 | so is an operator that nothing around it lengthens |
| `Tokenizer.WordIsWhole` | crates/omnikv-engine/src/query/sql.rs:550-563 | any other characters make one word |
| `Tokenizer.Relex` | crates/omnikv-engine/src/query/sql.rs:437-482 | tokens joined by spaces are read back as they are |
| `Tokenizer.OneTokenIff` | crates/omnikv-engine/src/query/sql.rs:487-563 | a text is read as itself exactly when it has one of those shapes |
| `Tokenizer.OpenText` | crates/omnikv-engine/src/query/sql.rs:487-563 | a text ends inside a string exactly when its quotes are odd, and the string's text is what follows its opening quote |
| `Tokenizer.RelexSliceIff` | crates/omnikv-engine/src/query/sql.rs:437-482 | a slice of a text's tokens joined by spaces is read back exactly when it is empty, stops before the last token, or the text does not end inside a string that looks like no token |
| `Tokenizer.RelexIff` | crates/omnikv-engine/src/query/sql.rs:437-482 | the same for all of them |
| `Tokenizer.UnclosedStringIsLost` | crates/omnikv-engine/src/query/sql.rs:487-563 | a blank after an unclosed quote is a token, and gone once re-read |
| `Tokenizer.QuoteIsToken` | crates/omnikv-engine/src/query/sql.rs:494-507 | any text quoted and escaped is one token |
| `WhereParser.ReadText` | crates/omnikv-engine/src/query/sql.rs:565-605 | and its value is the text |
| `WhereParser.ReadValue` | crates/omnikv-engine/src/query/sql.rs:565-605 | every literal a token can carry is read back as itself |
| `WhereParser.ParseWhereExpr` | crates/omnikv-engine/src/query/sql.rs:1044-1062 | terminates on every token list and computes the OR level of the grammar, which `SpelledIsParsed` is about |
| `WhereParser.ParseWhereAnd` | crates/omnikv-engine/src/query/sql.rs:1064-1080 | likewise the AND level |
| `WhereParser.FindClosing` | crates/omnikv-engine/src/query/sql.rs:1148-1163 | the loop stops at the first token that closes the parenthesis, or at the end |
| `WhereParser.ParseList` | crates/omnikv-engine/src/query/sql.rs:1173-1183 | the loop reads every token but the commas, in order, up to the next closing parenthesis |
| `WhereParser.SubqueryAtom` | crates/omnikv-engine/src/query/sql.rs:1140-1172 | a column IN a parenthesized query hands on the whole query and nothing more, however its parentheses nest and whatever follows |
| `WhereParser.UpperIff` | crates/omnikv-engine/src/query/sql.rs:1048-1112 | a token is a keyword exactly when it is spelled so in any mixture of cases, dotless i and long s included |
| `WhereParser.SpelledIsParsed` | crates/omnikv-engine/src/query/sql.rs:1044-1218 | every spelling of a tree is read back, consuming exactly its tokens: `<>` and `!=`, keywords and aggregates in any case, quoted and bare strings, signs and leading zeros, lists, subqueries and spare parentheses, OR and AND nesting to the left |
| `WhereParser.SpellingUnique` | crates/omnikv-engine/src/query/sql.rs:1044-1218 | so no token list writes two trees |
| `WhereParser.SpelledTextIsParsed` | crates/omnikv-engine/src/query/sql.rs:487-563 | the same from text, through the tokenizer |
| `WhereParser.PredicateErrors` | crates/omnikv-engine/src/query/sql.rs:1187-1210 | what follows a column is refused for a missing operator, an unknown one or a missing value exactly when there is none |
| `WhereParser.RenderSpells` | crates/omnikv-engine/src/query/sql.rs:1044-1218 | writing a tree with parentheses only where needed is one of its spellings |
| `WhereParser.WhereRoundTrip` | crates/omnikv-engine/src/query/sql.rs:1044-1218 | a tree written with parentheses only where needed is read back, consuming exactly its tokens, inside any token list that does not continue it |
| `WhereParser.WhereTextRoundTrip` | crates/omnikv-engine/src/query/sql.rs:1044-1218 | and so from text, through the tokenizer |

## Left out

- The storage files: memory tables, sorted files, bloom filters, compaction, the write-ahead log and its recovery. The engine is its numbered records.
- Time to live. Every modelled write is stored without expiry; staging passes a stored expiry back as a duration, which is not modelled.
- The 10 MB bound on one value, which a batch also checks.
- `RaftApply.StateMachine.SaveMeta`: the pointer is a cell of its own beside the data, not a key among them.
- Moving files and rebasing manifests in `install_snapshot`; log storage, purging and truncation; openraft itself.
- Participants that crash, and storage failures inside two-phase commit; timeouts.
- `Decimal.ComputeAggregate`: does not model the branch that sums binary floats, nor COUNT, MIN and MAX.
- `Volcano.NextRow`: operators are values handed from call to call instead of objects behind a trait, so aliasing of operators is not modelled.
- `JoinQuery.PlanComputesQuery`: every side is a scan; `PkLookup.LookupPlanComputesQuery` lets the planner replace it by a primary-key lookup. Index scans run as scans. Projection, sorting, grouping and limits above the join are not part of the plan.
- `PkLookup.FirstIsEnough`: reads stored rows of a typed table only; the overlay of staged writes and the scan that replaces a lookup of a legacy numeric key are not modelled.
- `PkLookup.LookupIsScanIff`: the scan that replaces a lookup of a legacy numeric key is not modelled, nor are keys of type FLOAT shown to meet its condition; `IntegerLookupIff` does without it for INTEGER keys.
- `SqlSession.StageFailsIff`: the closed form is for keys named once in each batch; `SqlSession.Stage` states failure for every batch through the first operation without room.
- Errors of child iterators and of storage scans inside joins and loads.
- `IndexRuns.LookupExact`: is stated for documents whose covered fields are well typed; `IndexEncoding.WrongTypeIsDefault` says what the others are indexed as.
- Creating, rebuilding and dropping indexes; the catalog's cache; resolving a table name by prefix.
- `SqlTables.ExecInsert`: takes rows with columns resolved and values canonicalized; column lists, defaults and arity checks are not modelled.
- Migration reads the table as one list; the staged rows it merges in first are those of `SqlSession.LoadRows`.
- `WhereParser.SpelledIsParsed`: is about well-formed spellings; that the parser also accepts a missing closing parenthesis, a list without commas or its opening parenthesis, and any word where NULL is due after IS is in the model and not characterized.
- CREATE, SELECT lists, UNION splitting and the other statement parsers; binding of parameters.
- Servers, authentication, transport, clients, configuration, benchmarks and the conflict checks of transactions.
