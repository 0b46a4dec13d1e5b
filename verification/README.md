# Verification of the VeriSimDB core

A Dafny 4.11 model of the parts of VeriSimDB's Rust core that keep state or
index structures over whole runs, with proofs about every input and every run.
`dafny verify dfyconfig.toml` checks all of it.

| files | what they model |
|---|---|
| `WaitForGraph`, `LockTable`, `LockSafety` | shared and exclusive locks with upgrade, the wait-for graph, breadth-first deadlock detection |
| `Transactions`, `Interleaving`, `Serializability` | the transaction manager: lifecycle, undo logs, read stamps, versions, and every interleaving of its critical sections |
| `LockRuns` | who holds what and who waits for whom, told from the steps of a run alone |
| `DataRuns`, `DataInvariant`, `DataSteps`, `DataResults` | transactions over data: locked and stamped reads, logged writes, undo lists applied late and entry by entry, serial execution |
| `LateUndo`, `FailedCommits`, `DataExamples` | when late undo does harm, what failed commits leave, and runs that show both |
| `Graph`, `SimpleGraphStore`, `OrderedKeys`, `RedbGraphStore`, `GraphAgreement` | the two graph stores, in memory and over ordered byte keys, and exactly when they answer alike |
| `QueryText`, `PlanCache`, `PlanCacheRuns`, `PlanCacheLives`, `PlanCacheSections` | query normalisation and the prepared-statement cache: by whole operations, as the life of each statement, and with prepares interleaved |
| `Conflicts`, `ConflictRuns` | the conflict resolver and its three-phase move to a bounded history |
| `RateLimiter`, `Base64` | the sliding-window rate limiter and the base64url codec |
| `HexadStore`, `HexadTransactions`, `HexadRuns`, `HexadWrites`, `HexadSections` | the hexad store over the transaction manager, with all failure exits: its transactions, its runs, what each operation leaves and answers, and operations interleaved at the registry |
| `PlanCosts`, `PlanCostLaws`, `PlanHints`, `Planner` | the cost model in exact arithmetic and what it comes to, hints, and plan optimisation |
| `Tokenizer` | the query tokenizer |

Objects the program updates in place are classes whose methods are proved
against specification functions; the interleavings and runs are built from
those same functions. Runs are sequences of steps, and a step that is not
enabled changes nothing. Random identifiers, clock readings, hashes, and the
success or failure of the stores and of the log are parameters.

## Findings

Where code and documentation part, the model follows the code.

- `rollback` releases the locks before its caller can apply the undo list, which
  it does entry by entry. A transaction that is granted such a key in between can
  commit a validated read of data that is then taken back, or that only lay
  between two entries (`DataExamples.LateUndoBreaksReader`,
  `DataExamples.HalfUndoneBreaksReader`), or lose its own committed write.
  `LateUndo.GuardIsExact` says exactly which grants can do that; serializability
  over data is proved for runs without one.
- A commit that fails validation rolls its transaction back without handing out
  the undo list, and the data it wrote stays (`FailedCommits.FailedCommitStrands`).
- Versions do not move on a rollback, so a read that was stamped but not locked
  can be of data that is never committed (`DataExamples.DirtyStampPasses`), in
  exactly the cases of `DataResults.UnsettledInEveryRun`.
- A repeated Shared request records Shared while the table keeps Exclusive
  (`LockRuns.RecordedAsAsked`).
- A blocked upgrade is reported as an upgrade conflict only to the first holder
  of the key, and without a wait-for edge (`LockSafety.DecisionMeaning`).
- A node whose IRI starts with `literal::` shares its key with a literal
  (`Graph.SharedKeyExactly`), and the literal can then be listed as an incoming
  edge of that node (`Graph.IncomingExactly`). A NUL inside an IRI makes the redb
  backend take one triple for another (`GraphAgreement.NulConfuses`);
  `GraphAgreement.AgreeExactly` says exactly when the two stores part.
- A plan cache of capacity zero holds one statement, and an expired execution
  leaves its fingerprint mapped, so that a lookup finds an id nothing else knows
  (`PlanCacheRuns.ZeroCapacityHoldsOne`, `PlanCacheRuns.FoundButUnknownExactly`).
  Two concurrent prepares of one query can reset its statement and evict another
  without need (`PlanCacheSections.TwoPreparesEvict`).
- The rate limiter reads the clock before it takes its lock; any check that
  enters late can break its bound (`RateLimiting.LateReadingExceedsExactly`).
- A keyword spelled with a long s is recognised but not unified with the usual
  spelling (`QueryText.LongSpellings`).
- Normalisation also lowers TYPE and the names of the modalities, which the
  documentation of `fingerprint` does not list (`QueryText.CaseIsIgnoredExactly`).
- The base64 decoder takes padding anywhere as a zero digit
  (`Base64.AcceptedExactly`).
- A graph input without relations sets the graph flag without storing anything
  (`HexadRuns.GraphBackedExactly`, `HexadRuns.HasLinkExactly`), and a failed
  create can leave data behind in exactly the cases of
  `HexadRuns.FailedCreateIsUndone`.
- Updates and deletes touch the registry outside their locks. A delete that runs
  inside an update is undone, and flags stay registered without data
  (`HexadSections.DeletedComesBack`). `HexadSections.ReentersExactly` and
  `HexadSections.StraysExactly` say exactly when the calls under way can lead to
  either.
- The hint for a full-text query is cut after twenty bytes, and the program stops
  when that is inside a character (`PlanHints.UnhintableExactly`).

## Model

| member | source | states |
|---|---|---|
| `WaitForGraph.NewEdgesCloseCyclesAtSource` | rust-core/verisim-hexad/src/transaction.rs:386-407 | a graph that gains edges only out of one transaction gains cycles only through that transaction, so testing the requester is enough |
| `WaitForGraph.FirstReturnIsShortest` | rust-core/verisim-hexad/src/transaction.rs:459-496 | the first queued path that comes back to the start is a shortest cycle through it |
| `WaitForGraph.EmptyQueueMeansNoCycle` | rust-core/verisim-hexad/src/transaction.rs:459-496 | when the queue runs dry the start lies on no cycle |
| `LockTables.LockTable.DetectCycle` | rust-core/verisim-hexad/src/transaction.rs:459-496 | terminates; reports a cycle if and only if the start lies on one; the reported path starts and ends at the start, follows wait-for edges, and no such path is shorter |
| `LockTables.LockTable.Extend` | rust-core/verisim-hexad/src/transaction.rs:485-491 | the path continued by every successor, each continuation once |
| `LockTables.LockTable.Acquire` | rust-core/verisim-hexad/src/transaction.rs:307-436 | the whole new table for each outcome (held already, upgraded, granted with the requester's edges dropped, refused with a new edge, deadlock with the requester's edges dropped) and the answers that go with it; what holding and waiting come to over a run is `LockRuns.HeldAsGiven` and `LockRuns.EdgesAreWaits` |
| `LockTables.LockTable.ReleaseAll` | rust-core/verisim-hexad/src/transaction.rs:440-453 | every lock of the transaction and every edge from or to it is gone, emptied entries disappear, all else stays |
| `LockTables.LockTable.Inspect` | rust-core/verisim-hexad/src/transaction.rs:320-423 | the scan over the holders reaches the decision the requester's own entry and the first incompatible entry call for |
| `LockSafety.DecisionMeaning` | rust-core/verisim-hexad/src/transaction.rs:307-423 | when each answer is given, if and only if, in terms of who holds the key and how; a blocked upgrade is reported as such only to the first holder |
| `LockSafety.DeadlockExactly` | rust-core/verisim-hexad/src/transaction.rs:386-407 | a deadlock is reported if and only if the blocker already waits, directly or not, for the requester, and then the requester keeps no edge |
| `LockSafety.CycleThroughNewEdge` | rust-core/verisim-hexad/src/transaction.rs:386-407 | with an edge added from the requester to the blocker, the requester lies on a cycle if and only if a walk led from the blocker to it before |
| `LockSafety.AcquireAddsOnlyRequesterEdges` | rust-core/verisim-hexad/src/transaction.rs:386-407 | a request adds only edges from the requester to holders of the key |
| `LockSafety.AcquireKeepsTableOk` | rust-core/verisim-hexad/src/transaction.rs:307-436 | a request keeps holders distinct and all Shared or a single Exclusive, the wait-for graph acyclic, and every edge pointing at a holder |
| `LockSafety.ReleaseKeepsTableOk` | rust-core/verisim-hexad/src/transaction.rs:440-453 | a release keeps the same |
| `LockSafety.ReleaseDropsOnly` | rust-core/verisim-hexad/src/transaction.rs:440-453 | after a release exactly the other transactions' locks and edges are left |
| `LockSafety.AcquireChangesOnlyRequester` | rust-core/verisim-hexad/src/transaction.rs:307-436 | a request changes no lock and no edge of another transaction |
| `LockRuns.GrantEndsWaiting` | rust-core/verisim-hexad/src/transaction.rs:425-426 | a transaction that was given a new lock, or a stronger one, waits for nobody |
| `LockRuns.EdgesAreWaits` | rust-core/verisim-hexad/src/transaction.rs:386-453 | in every interleaving one transaction has an edge to another if and only if some request of the first was refused because of the second, and since then the first was not given a new lock or an upgrade, was not told of a deadlock, and neither was released |
| `LockRuns.HeldAsGiven` | rust-core/verisim-hexad/src/transaction.rs:408-453 | in every interleaving a transaction holds a key in a mode if and only if some request of its for just that was given, and since then it was given no upgrade of it and was not released |
| `LockRuns.HoldersAreOldestFirst` | rust-core/verisim-hexad/src/transaction.rs:408-420 | the holders of a key stand in the order in which they were given it, so the one a request meets first is the oldest |
| `LockRuns.AnsweredExactly` | rust-core/verisim-hexad/src/transaction.rs:307-436 | after every run: a request is granted if and only if the key is free for it or had already; a deadlock is told if and only if the first holder is in the way and a chain of refusals still in force leads from it to the requester; a conflict names that holder, or the second one to a first holder that cannot upgrade |
| `LockRuns.RecordedAsAsked` | rust-core/verisim-hexad/src/transaction.rs:753-790 | in every interleaving the mode a transaction has recorded for a key is the one in which it last asked for the key and was granted it, a weaker repetition included |
| `Transactions.TransactionManager.Begin` | rust-core/verisim-hexad/src/transaction.rs:595-612 | one new active transaction with empty logs, nothing else changed |
| `Transactions.TransactionManager.Commit` | rust-core/verisim-hexad/src/transaction.rs:618-693 | the result and the whole new state: validated reads, one version increment for each undo entry, the final state, the released locks; or, on a stale read, a rollback that names the first stale read |
| `Transactions.TransactionManager.Rollback` | rust-core/verisim-hexad/src/transaction.rs:699-736 | the undo log newest first, the final state, the released locks; refusal when the transaction is unknown or finished |
| `Transactions.TransactionManager.AcquireLock` | rust-core/verisim-hexad/src/transaction.rs:741-793 | the new table and the recorded lock, or the error for an unknown modality, an unusable transaction, a conflict, or a deadlock |
| `Transactions.TransactionManager.RecordUndo` | rust-core/verisim-hexad/src/transaction.rs:799-840 | one more undo entry, or the error and no change |
| `Transactions.TransactionManager.RecordRead` | rust-core/verisim-hexad/src/transaction.rs:847-882 | one more stamp with the version read, or the error and no change |
| `Transactions.TransactionManager.PurgeCompleted` | rust-core/verisim-hexad/src/transaction.rs:946-955 | only active transactions remain, and the count of those removed |
| `Transactions.PurgeExactly` | rust-core/verisim-hexad/src/transaction.rs:946-955 | a purge makes no difference to a transaction that can be used, makes every committed or rolled-back one unknown, and counts those |
| `Interleaving.LockSafetyInEveryRun` | rust-core/verisim-hexad/src/transaction.rs:307-453 | in every interleaving of all critical sections the holders of a key are distinct and compatible, no transactions wait in a circle, every edge ends at a holder, and only active transactions hold or wait |
| `Interleaving.RecordedKeysAreHeldKeys` | rust-core/verisim-hexad/src/transaction.rs:753-790 | in every interleaving an active transaction has recorded each key once and exactly the keys it holds, up to the one its caller is about to record |
| `Interleaving.SectionsOfCommit` | rust-core/verisim-hexad/src/transaction.rs:618-693 | the sections of a commit, run without interruption, leave the state the method promises |
| `Interleaving.SectionsOfRollback` | rust-core/verisim-hexad/src/transaction.rs:699-736 | the same for a rollback |
| `Interleaving.SectionsOfLockRequest` | rust-core/verisim-hexad/src/transaction.rs:753-790 | the same for the three sections of a lock request |
| `Interleaving.SectionsOfRead` | rust-core/verisim-hexad/src/transaction.rs:848-882 | the same for the two sections of a read record |
| `Serializability.SerializableInCommitOrder` | rust-core/verisim-hexad/src/transaction.rs:555-693 | in every interleaving, executing the committed transactions one by one in commit order gives each Serializable one exactly the versions it stamped and ends in the versions the manager holds |
| `Serializability.NoWriteBetweenReadAndCommit` | rust-core/verisim-hexad/src/transaction.rs:618-693 | between a read of a committed Serializable transaction and its commit no other commit wrote that key |
| `Serializability.ValidationFailsExactly` | rust-core/verisim-hexad/src/transaction.rs:630-670 | in every interleaving a commit turns into a rollback if and only if the transaction is Serializable and some commit after one of its reads wrote the key read |
| `Serializability.ConflictNamesVersions` | rust-core/verisim-hexad/src/transaction.rs:630-670 | in every interleaving a refused commit names the entity of the first stamp whose key was written since, as expected the version at the time of the read, and as actual the later version of now |
| `Serializability.CommittedExactly` | rust-core/verisim-hexad/src/transaction.rs:618-736 | in every interleaving the transactions in the state Committed are exactly those whose commit passed validation |
| `DataRuns.UndoRestoresOldest` | rust-core/verisim-hexad/src/transaction.rs:699-736 | applied in the returned order, an undo list sets each key it names to the data of its oldest entry and changes no other key |
| `DataResults.RunsAreSerializable` | rust-core/verisim-hexad/src/transaction.rs:307-882 | with Exclusive locks on writes, locks on reads and stamps, true undo data, and no dangerous grant, every interleaving is equivalent to the serial execution of its commits, rollbacks handing their lists out after the locks are gone and the lists being applied entry by entry, in order, with others acting in between: every read is what it would have been, and so is the stored data, except where an active transaction wrote or an entry is still to be applied |
| `DataResults.CommitNeverFailsUnderDiscipline` | rust-core/verisim-hexad/src/transaction.rs:618-693 | in such a run commit-time validation never fails |
| `DataResults.SerialExactlyWhenClean` | rust-core/verisim-hexad/src/transaction.rs:618-882 | for reads stamped without a lock: in every interleaving without a dangerous grant a committed transaction's reads are those of the serial execution if and only if it read no key at a time when an entry for it stood out, in a list still to be applied or in the undo log of another active transaction |
| `DataResults.UnsettledInEveryRun` | rust-core/verisim-hexad/src/transaction.rs:847-882 | what is stored at a key is what a transaction would find there running alone on the committed data if and only if no such entry stands out, that is, no oldest entry for the key in one of those lists and logs differs from what is stored; under a lock none ever does |
| `LateUndo.GuardIsExact` | rust-core/verisim-hexad/src/transaction.rs:721-735 | the locks are gone before the list is applied, entry by entry: in every orderly interleaving, granting a key can lead to an outcome that is not serial if and only if an entry still to be applied names the key and the key is granted Exclusive or its data is not what that entry restores |
| `LateUndo.RollbackOwes` | rust-core/verisim-hexad/src/transaction.rs:699-736 | a rollback hands out the undo log newest first, which names exactly the keys written; the data is still as it was |
| `LateUndo.LateUndoRestores` | rust-core/verisim-hexad/src/transaction.rs:695-736 | in every interleaving without a dangerous grant, a list applied entry by entry at whatever later times ends by giving each key it names its value from before the first write, which is the committed value from the rollback until then |
| `LateUndo.OwedKeyIsFrozen` | rust-core/verisim-hexad/src/transaction.rs:695-736 | while a list owes for a key, no event changes its committed value, only the next entry of that very list changes what is stored there, and the last one for the key puts the committed value back |
| `LateUndo.RollbackRestores` | rust-core/verisim-hexad/src/transaction.rs:695-736 | a list applied whole within the step of the rollback, before the locks go, gives each key written its value from before the first write and changes no other key; the manager itself does not offer that order |
| `FailedCommits.FailedCommitStrands` | rust-core/verisim-hexad/src/transaction.rs:630-670 | a commit is refused if and only if validation fails; it then leaves each written key off its committed data if and only if the last value written is not the oldest value logged, and every continuation without a dangerous grant leaves it so, no call returning the list |
| `DataExamples.LateUndoBreaksReader` | rust-core/verisim-hexad/src/transaction.rs:721-735 | a run in which a validated, committed read is of data that a list applied afterwards takes back, although nobody changed the key in between |
| `DataExamples.HalfUndoneBreaksReader` | rust-core/verisim-hexad/src/transaction.rs:695-736 | a run in which a validated, committed read falls between two entries of one list and is of data that no serial execution shows |
| `DataExamples.HalfUndoneGrant` | rust-core/verisim-hexad/src/transaction.rs:721-735 | in that run, when the reader is granted the key, what is stored is what the oldest entry restores, and yet the grant is dangerous |
| `DataExamples.DirtyStampPasses` | rust-core/verisim-hexad/src/transaction.rs:630-670 | a run in which a stamped read of an uncommitted write passes validation, because the writer rolls back and the version never moves |
| `DataExamples.OvertakenCommitFails` | rust-core/verisim-hexad/src/transaction.rs:630-670 | a run in which a commit fails with a write logged, and the written key is off its committed data |
| `DataExamples.OvertakenRunIsGuarded` | rust-core/verisim-hexad/src/transaction.rs:630-670 | that run grants nothing dangerously |
| `Graph.SharedKeyExactly` | rust-core/verisim-graph/src/lib.rs:125-140 | two edges share a triple key if and only if they agree on subject, predicate, and object, where a node whose IRI starts with `literal::` is taken for a literal |
| `Graph.BallIsDistance` | rust-core/verisim-graph/src/lib.rs:277-302 | what a search of `hops` rounds has visited is exactly what trails of at most that many hops reach |
| `Graph.SphereIsExactDistance` | rust-core/verisim-graph/src/lib.rs:277-302 | the frontier after each round is exactly what lies at that distance and no nearer |
| `Graph.HopsAreUndirected` | rust-core/verisim-graph/src/lib.rs:277-302 | while no literal stands under a marked key, a hop leads along a node-object edge, in either direction, and nowhere else |
| `Graph.MarksExactly` | rust-core/verisim-graph/src/lib.rs:177-275 | after every run the object index lists a key if and only if a node was inserted under it and none was deleted under it since |
| `Graph.StoredExactly` | rust-core/verisim-graph/src/lib.rs:177-275 | after every run an edge is stored under a key if and only if the last operation on the key inserted it |
| `Graph.OutgoingExactly` | rust-core/verisim-graph/src/lib.rs:207-220 | after every run the edges out of a node are those with it as subject that the last operation on their key inserted |
| `Graph.NewNodeExactly` | rust-core/verisim-graph/src/lib.rs:62-70 | a node is named by what follows the last `/` of its IRI, without one the last `#`, and without either by the whole |
| `Graph.IncomingExactly` | rust-core/verisim-graph/src/lib.rs:222-235 | after every run the incoming edges of each node are the edges that point at it if and only if no literal is stored under a key at which a node was inserted and not deleted since |
| `Graph.PlainRunsAreTidy` | rust-core/verisim-graph/src/lib.rs:125-140 | a run whose object IRIs do not start with `literal::` leaves no such literal |
| `Graph.LiteralListedAsIncoming` | rust-core/verisim-graph/src/lib.rs:177-235 | a run after which a literal is listed as an incoming edge of the node that spells its key |
| `SimpleGraph.SimpleGraphStore.Insert` | rust-core/verisim-graph/src/lib.rs:177-205 | for every edge: it replaces any edge with its key, a node object's key is marked, and both indices list exactly the stored and the marked keys |
| `SimpleGraph.SimpleGraphStore.Delete` | rust-core/verisim-graph/src/lib.rs:243-275 | for every edge: the edge with this key is gone, a node object's key is unmarked, and index entries go when they are empty |
| `SimpleGraph.SimpleGraphStore.Outgoing` | rust-core/verisim-graph/src/lib.rs:207-220 | each stored edge out of the node, once |
| `SimpleGraph.SimpleGraphStore.Incoming` | rust-core/verisim-graph/src/lib.rs:222-235 | each stored edge under a marked key with the node for its object, once |
| `SimpleGraph.SimpleGraphStore.Collect` | rust-core/verisim-graph/src/lib.rs:207-235 | the stored edge of each index entry, once |
| `SimpleGraph.SimpleGraphStore.Expand` | rust-core/verisim-graph/src/lib.rs:285-297 | one node expanded: its unvisited neighbours join the visited set and the next frontier |
| `SimpleGraph.SimpleGraphStore.Neighborhood` | rust-core/verisim-graph/src/lib.rs:277-302 | each node within `hops` hops, out along outgoing or back along incoming edges, once |
| `OrderedKeys.PrefixBlock` | rust-core/verisim-graph/src/redb_backend.rs:163-207 | in byte order the keys with a common prefix form one block |
| `OrderedKeys.ScanIsComplete` | rust-core/verisim-graph/src/redb_backend.rs:163-207 | a range scan from the prefix that stops at the first key without it has met every key with it |
| `RedbGraph.ParseReadsBack` | rust-core/verisim-graph/src/redb_backend.rs:103-121 | a NUL-separated triple key whose subject and predicate are free of NUL can be read back, so such triples have distinct keys |
| `RedbGraph.ParseIndexReadsBack` | rust-core/verisim-graph/src/redb_backend.rs:124-139 | the same for index keys |
| `RedbGraph.PrefixSelectsIri` | rust-core/verisim-graph/src/redb_backend.rs:142-147 | an index key starts with the prefix of an IRI if and only if it was made for that IRI |
| `RedbGraph.RedbGraphStore.ScanIndexForEdges` | rust-core/verisim-graph/src/redb_backend.rs:163-207 | the prefix scan collects the edge behind each row of the IRI, once, and no other |
| `RedbGraph.RedbGraphStore.Insert` | rust-core/verisim-graph/src/redb_backend.rs:212-266 | for every edge: the rows of the three tables with the edge's rows added |
| `RedbGraph.RedbGraphStore.Delete` | rust-core/verisim-graph/src/redb_backend.rs:314-367 | for every edge: the rows of the three tables without the edge's rows |
| `RedbGraph.RedbGraphStore.Outgoing` | rust-core/verisim-graph/src/redb_backend.rs:268-277 | for every node: each edge a subject index row under its prefix leads to, once |
| `RedbGraph.RedbGraphStore.Incoming` | rust-core/verisim-graph/src/redb_backend.rs:279-288 | for every node: each edge an object index row under its prefix leads to, once |
| `RedbGraph.RedbGraphStore.Expand` | rust-core/verisim-graph/src/redb_backend.rs:377-390 | one node expanded, over the scans |
| `RedbGraph.RedbGraphStore.Neighborhood` | rust-core/verisim-graph/src/redb_backend.rs:369-396 | for every node: each node within `hops` hops, as the scans tell, once |
| `GraphAgreement.AgreeExactly` | rust-core/verisim-graph/src/redb_backend.rs:103-367 | for any edges, and any nodes asked about that include theirs, the two stores answer alike after every run (which edges exist, what goes out of and comes into each node) if and only if different triples have different composite keys and no index row of one node also leads from another node to an edge |
| `GraphAgreement.NulFreeIsUnambiguous` | rust-core/verisim-graph/src/redb_backend.rs:51-52 | with IRIs free of NUL that is so, whatever the literals hold |
| `GraphAgreement.NulConfuses` | rust-core/verisim-graph/src/redb_backend.rs:103-121 | with a NUL in an IRI it need not be: one edge is inserted and another found |
| `GraphAgreement.StoresAgree` | rust-core/verisim-graph/src/redb_backend.rs:212-396 | run on the same operations, with unambiguous keys, both stores list the same edges out of and into a node and the same nodes around it |
| `QueryText.NormalizeIdempotent` | rust-core/verisim-planner/src/prepared.rs:602-637 | normalising twice is normalising once |
| `QueryText.NormalizeIdentifiesExactly` | rust-core/verisim-planner/src/prepared.rs:602-637 | two queries normalise alike if and only if they have the same words, keywords taken in lower case |
| `QueryText.CanonicalAgreesExactly` | rust-core/verisim-planner/src/prepared.rs:622-635 | two words are treated alike if and only if they are equal or a keyword in spellings with one lower case |
| `QueryText.CaseIsIgnoredExactly` | rust-core/verisim-planner/src/prepared.rs:609-635 | a word of ASCII letters and the same word in another case are one query if and only if the word is one of the 56 listed, of which the documentation of `fingerprint` leaves out TYPE and the modality names |
| `QueryText.LongSpellings` | rust-core/verisim-planner/src/prepared.rs:622-635 | a keyword spelled with a long s is recognised, and keeps a normal form of its own |
| `QueryText.ExtractParameters` | rust-core/verisim-planner/src/prepared.rs:643-669 | the character loop finds the parameters |
| `QueryText.ParametersExactly` | rust-core/verisim-planner/src/prepared.rs:643-669 | the parameters found are exactly those that occur, a dollar sign and the longest name after it, each once, in the order in which they first occur |
| `PlanCaches.PlanCache.Prepare` | rust-core/verisim-planner/src/prepared.rs:265-314 | a known query is touched; a new one is inserted under its fingerprint, after one least-recently-used statement made room if the cache was full |
| `PlanCaches.PlanCache.Execute` | rust-core/verisim-planner/src/prepared.rs:344-385 | the refusal for an unknown, expired, or mismatched execution; an expired statement goes and its fingerprint stays; success counts and touches; from when the time to live runs is `PlanCacheLives.TimeToLiveRunsFromPrepare` |
| `PlanCaches.PlanCache.Invalidate` | rust-core/verisim-planner/src/prepared.rs:390-400 | the statement and its fingerprint are gone |
| `PlanCaches.PlanCache.InvalidateAll` | rust-core/verisim-planner/src/prepared.rs:406-415 | the cache is empty |
| `PlanCaches.PlanCache.CachePlan` | rust-core/verisim-planner/src/prepared.rs:466-471 | the physical plan of a resident statement is set, and nothing else |
| `PlanCaches.PlanCache.EvictExpired` | rust-core/verisim-planner/src/prepared.rs:509-534 | exactly the expired statements and their fingerprints are gone |
| `PlanCaches.PlanCache.EvictLru` | rust-core/verisim-planner/src/prepared.rs:544-557 | above capacity, one statement no newer than any other is gone |
| `PlanCaches.PlanCache.EvictLruInner` | rust-core/verisim-planner/src/prepared.rs:563-589 | one statement no newer than any other is gone, unless the cache is empty |
| `PlanCacheRuns.MapsAgreeInEveryRun` | rust-core/verisim-planner/src/prepared.rs:265-314 | in every run each resident id is the fingerprint of its stored query and is mapped to itself, and both maps have the same keys if and only if the run left no id dangling: expired when executed, and since then neither prepared again nor cleared with the rest |
| `PlanCacheRuns.NoExpiredNoDangling` | rust-core/verisim-planner/src/prepared.rs:355-358 | a run without an expired execution leaves none |
| `PlanCacheRuns.FoundButUnknownExactly` | rust-core/verisim-planner/src/prepared.rs:446-460 | looking up a query finds an id that execution refuses as unknown if and only if that id dangles |
| `PlanCacheRuns.StepKeepsIndex` | rust-core/verisim-planner/src/prepared.rs:344-385 | how each operation changes the mappings without a statement: only an expired execution adds one |
| `PlanCacheRuns.SharedIdExactly` | rust-core/verisim-planner/src/prepared.rs:429-441 | with a hash without collisions two queries share an id if and only if their words agree, keywords taken in lower case |
| `PlanCacheRuns.SizeIsBounded` | rust-core/verisim-planner/src/prepared.rs:265-314 | in every run, invalidation and expiry included, the cache holds at most its capacity, or one statement when that is zero |
| `PlanCacheRuns.ZeroCapacityHoldsOne` | rust-core/verisim-planner/src/prepared.rs:280-300 | with capacity zero the first prepare still inserts |
| `PlanCacheRuns.ResidentExactlyWhenRecent` | rust-core/verisim-planner/src/prepared.rs:563-589 | over a run with a strictly increasing clock and no expiry or invalidation an id is resident if and only if it was touched and fewer than `max_entries` ids were touched after it |
| `PlanCacheLives.StatementsLived` | rust-core/verisim-planner/src/prepared.rs:265-385 | in every run each resident statement was brought in by one prepare and holds exactly what that prepare and the operations since say: query, plan, parameters, and creation time of the prepare, a use for each execution in time with the right names, the time of the last use, the last physical plan cached |
| `PlanCacheLives.TimeToLiveRunsFromPrepare` | rust-core/verisim-planner/src/prepared.rs:592-596 | in every run, whatever touched the statement since: it is refused as expired, not found by a reading, and taken out by an execution or a sweep if and only if more than the time to live has passed since the prepare that brought it in |
| `PlanCacheLives.ExecutionAnswers` | rust-core/verisim-planner/src/prepared.rs:344-378 | in every run an execution of a resident statement succeeds if and only if it is in time and gives exactly the names in the query, if there are any; being late is reported before wrong names |
| `PlanCacheLives.LostExactly` | rust-core/verisim-planner/src/prepared.rs:344-589 | in every run a resident statement goes only by its own late execution, its own invalidation, that of all, a sweep when it is late, all four if and only if, or for want of room when no other was unused for longer |
| `PlanCacheSections.MapsAgreeInterleaved` | rust-core/verisim-planner/src/prepared.rs:265-314 | with each prepare cut between its look and its entry, in every interleaving: each resident id is the fingerprint of its query and mapped to itself, and the ids mapped but not resident are exactly those the run left dangling |
| `PlanCacheSections.SizeIsBoundedInterleaved` | rust-core/verisim-planner/src/prepared.rs:265-314 | in every such interleaving the cache stays within its bound |
| `PlanCacheSections.EntryExactly` | rust-core/verisim-planner/src/prepared.rs:299-310 | what an entry does: the statement is as a first prepare makes it, at most one goes and only from a full cache; an entry in time keeps a full cache at its size, and one that shrinks it is late, its statement being there by now, with another least recently used |
| `PlanCacheSections.ShrinksExactly` | rust-core/verisim-planner/src/prepared.rs:299-310 | seen from the cache before: an entry can shrink it if and only if it is late, the cache is full, and another statement is least recently used; it must shrink it if and only if it is late, the cache is full, and its own statement is not least recently used |
| `PlanCacheSections.LateEntryHasAuthor` | rust-core/verisim-planner/src/prepared.rs:269-310 | an entry is late only when another caller entered the statement since its own looked for it |
| `PlanCacheSections.InTimeRunsAreWhole` | rust-core/verisim-planner/src/prepared.rs:265-314 | without late entries every interleaving is a run of whole operations through the same caches, each prepare taking place where it touches or enters |
| `PlanCacheSections.TwoPreparesEvict` | rust-core/verisim-planner/src/prepared.rs:299-310 | with room for two, two callers that prepare one query take the other statement out and leave one; `PlanCacheSections.TwoPreparesHappen` shows that the run exists |
| `PlanCacheSections.SectionsOfPrepare` | rust-core/verisim-planner/src/prepared.rs:265-314 | without interruption the two sections are a prepare |
| `Conflicts.SelectedExactly` | rust-core/verisim-normalizer/src/conflict.rs:657-683 | a policy is the selected one if and only if it is the override of the first overridden pair, either way round, or the default and no pair is overridden |
| `Conflicts.PriorityWinnerExactly` | rust-core/verisim-normalizer/src/conflict.rs:697-719 | a modality wins a ranking if and only if it is in conflict and ranks least, or is first in conflict and none is ranked |
| `Conflicts.WinnerExactly` | rust-core/verisim-normalizer/src/conflict.rs:690-740 | under last-writer-wins the winner is the modality listed last, under a ranking the least ranked or else the one listed first, none if there is no modality, and none under any other policy |
| `Conflicts.WinnerIsInConflict` | rust-core/verisim-normalizer/src/conflict.rs:690-740 | a winner is always one of the conflicting modalities, and there is none exactly for merges, policies that cannot decide, and empty conflicts |
| `Conflicts.ConflictResolver.DetectConflict` | rust-core/verisim-normalizer/src/conflict.rs:342-370 | one more open conflict at the end of the active list |
| `Conflicts.ConflictResolver.SelectPolicy` | rust-core/verisim-normalizer/src/conflict.rs:657-683 | the first overridden pair decides, and the default only without one |
| `Conflicts.ConflictResolver.ApplyPolicy` | rust-core/verisim-normalizer/src/conflict.rs:690-740 | the resolution with the winner of `Conflicts.WinnerExactly` |
| `Conflicts.ConflictResolver.Resolve` | rust-core/verisim-normalizer/src/conflict.rs:394-470 | the answer and both lists for every branch: unknown, closed, too much drift, undecidable policy, resolved |
| `Conflicts.ResolveAnswers` | rust-core/verisim-normalizer/src/conflict.rs:394-470 | what the caller is told, each case if and only if: closed already, too much drift whatever the policy, a policy that needs a person or a callback, or resolved now by the named or the selected policy in favour of its right winner |
| `Conflicts.ConflictResolver.ResolveManual` | rust-core/verisim-normalizer/src/conflict.rs:493-545 | the answer and both lists, a winner outside the conflict being refused |
| `Conflicts.ConflictResolver.Dismiss` | rust-core/verisim-normalizer/src/conflict.rs:557-596 | the answer and both lists for a dismissal |
| `Conflicts.ConflictResolver.MoveToHistory` | rust-core/verisim-normalizer/src/conflict.rs:747-766 | the conflict leaves the active list and ends the history, the oldest entries making room |
| `Conflicts.ConflictResolver.History` | rust-core/verisim-normalizer/src/conflict.rs:610-624 | the newest entries first, all of them for a limit of zero |
| `ConflictRuns.EachConflictInOnePlace` | rust-core/verisim-normalizer/src/conflict.rs:342-596 | in every interleaving of marking, removing, and recording, each detected conflict is in exactly one place: unresolved, in flight, in the history, or evicted from it |
| `ConflictRuns.HistoryIsNewestArchive` | rust-core/verisim-normalizer/src/conflict.rs:747-766 | in every interleaving no conflict is recorded twice, and the history is the newest end of everything recorded, full before anything is evicted |
| `ConflictRuns.ArchiveOnlyGrows` | rust-core/verisim-normalizer/src/conflict.rs:747-766 | what was recorded stays recorded in its order: no conflict comes back |
| `ConflictRuns.ClosedOnlyByRequest` | rust-core/verisim-normalizer/src/conflict.rs:394-596 | in every interleaving each closed conflict carries exactly the outcome of one request of the run |
| `ConflictRuns.HistoryIsSoundlyResolved` | rust-core/verisim-normalizer/src/conflict.rs:342-596 | in every interleaving each entry of the history is as it was reported, and one request of the run closed it soundly: by the named or selected policy, below the manual threshold and in favour of the last writer or the least ranked; or by a person, in favour of a modality in conflict; or by a dismissal, without a winner |
| `ConflictRuns.InProgressExactly` | rust-core/verisim-normalizer/src/conflict.rs:412-452 | in every interleaving an undecided conflict is in progress if and only if some request left it to a person or a callback, and open otherwise |
| `ConflictRuns.PhasesInOneGo` | rust-core/verisim-normalizer/src/conflict.rs:747-766 | phases that follow each other directly leave what the whole call leaves |
| `RateLimiting.RateLimiter.Check` | rust-core/verisim-api/src/auth.rs:170-188 | the answer and the pruned and extended window of the client |
| `RateLimiting.RateLimiter.Remaining` | rust-core/verisim-api/src/auth.rs:191-202 | the unused quota and the pruned window of the client |
| `RateLimiting.RateLimiter.Prune` | rust-core/verisim-api/src/auth.rs:180-180 | the instants still inside the window, in order |
| `RateLimiting.TableIsRecord` | rust-core/verisim-api/src/auth.rs:170-202 | pruning forgets nothing that matters: the kept instants that are still fresh are those of the full record of accepted checks |
| `RateLimiting.AtMostLimitPerWindow` | rust-core/verisim-api/src/auth.rs:170-188 | in every run whose clock does not go back, each half-open interval of window length holds at most the limit of accepted checks of a client |
| `RateLimiting.RefusedExactly` | rust-core/verisim-api/src/auth.rs:170-188 | a check is refused if and only if there is a limit and as many checks as that were accepted less than a window ago; there are never more |
| `RateLimiting.RemainingIsUnusedQuota` | rust-core/verisim-api/src/auth.rs:191-202 | `remaining` is the limit less the checks accepted less than a window ago, or the greatest 32-bit count without a limit |
| `RateLimiting.LateReadingExceedsExactly` | rust-core/verisim-api/src/auth.rs:175-176 | the clock is read before the lock is taken: after readings that went forward to `latest`, a check that reads `late` can bring more than the limit into some window if and only if `late` is before `latest`, windows of no length aside |
| `Base64.RoundTrip` | rust-core/verisim-api/src/auth.rs:499-553 | decoding the unpadded encoding of any octets returns those octets |
| `Base64.AcceptedExactly` | rust-core/verisim-api/src/auth.rs:499-553 | a text is accepted if and only if its length is not one more than a multiple of four and every character is in either alphabet or is padding, wherever it stands |
| `Base64.ReencodesExactly` | rust-core/verisim-api/src/auth.rs:499-553 | a text is the encoding of what it decodes to if and only if it has only URL-safe symbols, no lone symbol at the end, and no stray bits in the last one |
| `Base64.DecodedByBits` | rust-core/verisim-api/src/auth.rs:499-553 | an accepted text, canonical or not, decodes to the bits of its characters in either alphabet, padding added and read as zeros, cut into octets; where padding stands third or fourth in a group the octet in its place is left out |
| `Base64.SymbolsAreSextets` | rust-core/verisim-api/src/auth.rs:752-776 | the encoding is the one of RFC 4648: symbol by symbol, the six-bit groups of the octets in the URL-safe alphabet |
| `Base64.EncodedLengthExactly` | rust-core/verisim-api/src/auth.rs:752-776 | six bits a symbol, rounded up |
| `Base64.Encode` | rust-core/verisim-api/src/auth.rs:752-776 | the loop computes the encoding |
| `Base64.Decode` | rust-core/verisim-api/src/auth.rs:499-513 | padding, translation, and decoding compute the decoded text or the error |
| `Base64.StdDecoder` | rust-core/verisim-api/src/auth.rs:516-553 | the chunk loop computes the octets of all groups, or the error of the first unreadable one |
| `Hexads.HexadStore.Create` | rust-core/verisim-hexad/src/store.rs:538-779 | registry, stores, transaction manager, and answer for every exit |
| `Hexads.HexadStore.Update` | rust-core/verisim-hexad/src/store.rs:782-1017 | the same for an update, which is not rolled back in the stores |
| `Hexads.HexadStore.Delete` | rust-core/verisim-hexad/src/store.rs:1024-1101 | the same for a delete; which locks it takes and which versions it raises is `HexadTransactions.DeleteRefusedExactly` and `HexadTransactions.DeleteLeavesClean` |
| `Hexads.HexadStore.AcquireAll` | rust-core/verisim-hexad/src/store.rs:567-579 | the locks in order, the first refusal rolling the transaction back |
| `Hexads.HexadStore.Populate` | rust-core/verisim-hexad/src/store.rs:587-719 | the writes in order up to the first failure, an undo entry for each success |
| `Hexads.HexadStore.TryWrite` | rust-core/verisim-hexad/src/store.rs:550-747 | begin, locks, writes, snapshot, and the end of the transaction, for every exit |
| `Hexads.HexadStore.RollbackCreate` | rust-core/verisim-hexad/src/store.rs:404-418 | the written vector, document, and tensor entries are deleted where deletion works, and nothing else |
| `Hexads.HexadStore.Get` | rust-core/verisim-hexad/src/store.rs:431-519 | the hexad assembled from the stores its flags name, or the first of them that cannot be read |
| `HexadTransactions.ReleaseUndoesAcquire` | rust-core/verisim-hexad/src/transaction.rs:307-453 | releasing a transaction after any lock request of it leaves the table that releasing it before would have left |
| `HexadTransactions.CreateLeavesClean` | rust-core/verisim-hexad/src/store.rs:538-779 | on every exit the transaction is finished, the lock table and every other transaction are as before, only success commits, the commit cannot fail, and the versions of the written modalities rise by exactly one |
| `HexadTransactions.UpdateLeavesClean` | rust-core/verisim-hexad/src/store.rs:782-1017 | the same for every exit of an update |
| `HexadTransactions.DeleteLeavesClean` | rust-core/verisim-hexad/src/store.rs:1024-1101 | the same for every exit of a delete, which raises the versions of exactly the modalities in the registered flags and of the history |
| `HexadTransactions.CreateRefusedExactly` | rust-core/verisim-hexad/src/store.rs:556-579 | a create is refused a lock if and only if another transaction holds one on a modality it gives or on the history, and it names the first by the order of the locks |
| `HexadTransactions.UpdateRefusedExactly` | rust-core/verisim-hexad/src/store.rs:800-832 | the same for an update |
| `HexadTransactions.DeleteRefusedExactly` | rust-core/verisim-hexad/src/store.rs:1042-1066 | a delete is refused a lock if and only if another transaction holds one on a modality in the registered flags or on the history, and it names the first |
| `HexadTransactions.KnownExactly` | rust-core/verisim-hexad/src/transaction.rs:54-57 | the manager knows exactly the names of the eight modalities |
| `HexadTransactions.PlacesAreNamed` | rust-core/verisim-hexad/src/store.rs:1042-1053 | the names the modalities are locked under, in the order of the locks |
| `HexadRuns.RegisteredIsBacked` | rust-core/verisim-hexad/src/store.rs:538-1101 | operations taken whole, one after the other: in every run each flag of each registered hexad but the graph flag is backed by data in its store, and the graph flag is backed if and only if an operation on that hexad landed a relation |
| `HexadRuns.HasLinkExactly` | rust-core/verisim-hexad/src/store.rs:198-222 | in every run a hexad has a link if and only if a create or update of it was granted its locks and landed at least one relation |
| `HexadRuns.GraphBackedExactly` | rust-core/verisim-hexad/src/store.rs:198-222 | after a create the graph flag is backed if and only if the input lists a relation |
| `HexadRuns.FailedCreateIsUndone` | rust-core/verisim-hexad/src/store.rs:404-418 | a failed create leaves the registry unchanged; a failed write is reported for the first part given, in order, whose write fails; and each of the vector, document, and tensor stores is unchanged if and only if no data is stuck there: not written before that part with a failing delete, not landed by the failing write itself |
| `HexadRuns.FailingIsReported` | rust-core/verisim-hexad/src/store.rs:581-737 | a failed write is reported for the first modality given whose write fails, or for the history |
| `HexadRuns.CreateThenGet` | rust-core/verisim-hexad/src/store.rs:431-519 | after a successful create a reader gets exactly what the create answered, which is what was given, in version one |
| `HexadRuns.UpdateThenGet` | rust-core/verisim-hexad/src/store.rs:782-1017 | a successful update answers with what was given, the new status, and the new counts; a reader gets what was given and, where nothing was given, what was there, one version later, a thousand at most being counted |
| `HexadWrites.CreateWritesExactly` | rust-core/verisim-hexad/src/store.rs:538-779 | the same for a create, which after a failure has deleted the vector, document, and tensor it had written where deletion works |
| `HexadWrites.UpdateWritesExactly` | rust-core/verisim-hexad/src/store.rs:782-1017 | an update that is granted its locks succeeds if and only if no write fails, and names the first that does; every store then holds exactly what landed up to there, each entry, link, lineage event, and snapshot with the new flags; refused, it leaves the stores alone |
| `HexadWrites.GetFailsExactly` | rust-core/verisim-hexad/src/store.rs:431-519 | a registered hexad can be read if and only if each vector, document, tensor, semantic, and spatial store its flags name can; otherwise the first of these is named |
| `HexadWrites.GetReadsThrough` | rust-core/verisim-hexad/src/store.rs:431-519 | when no needed store fails, history and lineage count as empty if and only if they cannot be read |
| `HexadRuns.DeleteIsFinal` | rust-core/verisim-hexad/src/store.rs:1024-1101 | operations taken whole, one after the other: after a successful delete no later run makes the hexad readable again; its vector, document, and tensor are gone where deletion worked, and all else the stores hold of it stays as it was |
| `HexadSections.SectionsOfCreate` | rust-core/verisim-hexad/src/store.rs:538-779 | cut at the registry, the sections of a create leave without interruption what the whole create leaves |
| `HexadSections.SectionsOfUpdate` | rust-core/verisim-hexad/src/store.rs:782-1017 | the same for an update |
| `HexadSections.SectionsOfDelete` | rust-core/verisim-hexad/src/store.rs:1024-1101 | the same for a delete |
| `HexadSections.ReentersExactly` | rust-core/verisim-hexad/src/store.rs:782-1101 | with operations interleaved there, a hexad that was generated and is not registered, such as one just deleted, is registered in some run if and only if a create or update of it is under way |
| `HexadSections.LastingFlagsAreBacked` | rust-core/verisim-hexad/src/store.rs:538-1101 | in every such interleaving the registered flags for semantic, provenance, spatial, and history data are backed |
| `HexadSections.UntornFlagsAreBacked` | rust-core/verisim-hexad/src/store.rs:538-1101 | so is every flag but the graph flag, unless a delete that has erased is about to remove the hexad, as long as no update under way carries a flag whose data a delete has taken |
| `HexadSections.StraysExactly` | rust-core/verisim-hexad/src/store.rs:782-1101 | in every run, bringing the calls under way to their end, starting no new one, can leave a hexad registered with a flag nothing backs and no delete about to remove it if and only if it is so registered now, or an update of it under way carries a flag whose data a delete has taken, or a delete of it under way has yet to erase while an update of it, or a create or update that is to enter a vector, document, or tensor flag for it, is under way too |
| `HexadSections.DeletedComesBack` | rust-core/verisim-hexad/src/store.rs:782-1101 | a run in which a delete succeeds inside an update, and the hexad is registered again, flagged for a vector that is gone |
| `PlanCosts.ExtractProofType` | rust-core/verisim-planner/src/cost.rs:470-481 | the first known proof type the contract string contains in lower case, or the custom one |
| `PlanCosts.Estimate` | rust-core/verisim-planner/src/cost.rs:318-403 | the node cost from base cost, mode, statistics, limit, conditions, and proofs |
| `PlanCosts.Narrow` | rust-core/verisim-planner/src/cost.rs:356-384 | the loop over the conditions narrows time and selectivity and adds up proof time |
| `PlanCosts.NodeCostSplits` | rust-core/verisim-planner/src/cost.rs:318-403 | a node's time is exactly its input and output cost plus its processor cost, neither negative |
| `PlanCostLaws.PlainNodeCost` | rust-core/verisim-planner/src/cost.rs:25-69 | time and rows of a node with nothing known and nothing asked, for each modality and mode |
| `PlanCostLaws.InformedExactly` | rust-core/verisim-planner/src/cost.rs:334-343 | statistics with queries draw time and selectivity towards what was measured by the weight, and others change nothing |
| `PlanCostLaws.LimitedExactly` | rust-core/verisim-planner/src/cost.rs:346-350 | an early limit of a thousand or more changes nothing; below, the selectivity goes in proportion and the time half way with it |
| `PlanCostLaws.ProofTimeExactly` | rust-core/verisim-planner/src/cost.rs:147-191 | the time of a proof by the first type whose name the contract contains |
| `PlanCostLaws.ConditionsTakeTime` | rust-core/verisim-planner/src/cost.rs:356-384 | whatever the order of the conditions, the time is scaled by seven tenths for each equality, eight for each range, and six for each text search, and the proofs add their own |
| `PlanCostLaws.ConditionsSelect` | rust-core/verisim-planner/src/cost.rs:356-384 | the selectivity is that of the last similarity search, or the one before the conditions, times a tenth for each equality and three for each range after it |
| `PlanCostLaws.NodeCostParts` | rust-core/verisim-planner/src/cost.rs:386-402 | six tenths of the time without proofs are input and output, the rest and the proofs processor cost; the rows are the selected share of those counted, or of a thousand, rounded down and one at least |
| `PlanCosts.Combine` | rust-core/verisim-planner/src/cost.rs:110-128 | the loop folds the estimates with the chosen combinator |
| `PlanCosts.CombineIgnoresOrder` | rust-core/verisim-planner/src/cost.rs:86-129 | any two orders of the same estimates combine to the same cost |
| `PlanCostLaws.CombinedExactly` | rust-core/verisim-planner/src/cost.rs:84-129 | work adds up and shares multiply; the time adds up in sequence and is that of the slowest in parallel; the rows are those of the largest result |
| `PlanCosts.EstimateWithPostProcessing` | rust-core/verisim-planner/src/cost.rs:406-422 | the loop adds each operation's time for the rows the ones before it leave |
| `PlanCostLaws.PostExactly` | rust-core/verisim-planner/src/cost.rs:204-258 | each operation works on the rows the ones before it left: a limit leaves that many at most, a grouping one for ten and one at least, the others all; each adds its time, in proportion to rows and keys, columns, or fields and aggregates, to total and processor cost |
| `PlanHints.OptimizationHint` | rust-core/verisim-planner/src/cost.rs:425-463 | the loop finds the hint, or stops at a full-text query it cannot cut |
| `PlanHints.LastConditionHints` | rust-core/verisim-planner/src/cost.rs:429-462 | the last condition that has something to say decides, and without one the modality does |
| `PlanHints.PreviewExactly` | rust-core/verisim-planner/src/cost.rs:434-441 | a text search hints at the whole query up to twenty bytes, or at the twenty bytes it starts with |
| `PlanHints.NodeHintExactly` | rust-core/verisim-planner/src/cost.rs:425-463 | a node's hint is that of the last of its conditions that gives one, and without such a condition that of its modality |
| `PlanHints.UnhintableExactly` | rust-core/verisim-planner/src/cost.rs:434-441 | the program stops if and only if some full-text query is longer than twenty bytes and no character of it ends at the twentieth |
| `PlanHints.SomeQueriesCannotBeCut` | rust-core/verisim-planner/src/cost.rs:434-441 | a letter followed by ten characters of two bytes is such a query |
| `Planner.Optimize` | rust-core/verisim-planner/src/optimizer.rs:55-177 | refuses only an empty plan, and stops if and only if some node cannot be hinted; the steps follow the stable order and carry their node's modality, cost, hint, and conditions; strategy, total, and notes |
| `Planner.CostNodes` | rust-core/verisim-planner/src/optimizer.rs:66-76 | each node with its place, priority, cost, and hint, up to the first that cannot be hinted |
| `Planner.BuildSteps` | rust-core/verisim-planner/src/optimizer.rs:99-135 | numbered steps in sorted order, each with its own node |
| `Planner.TakeNotes` | rust-core/verisim-planner/src/optimizer.rs:145-169 | the loop collects the notes |
| `Planner.NotedExactly` | rust-core/verisim-planner/src/optimizer.rs:159-169 | a step is noted if and only if its selectivity is above one half and its time above 100 |
| `Planner.NotesExactly` | rust-core/verisim-planner/src/optimizer.rs:145-169 | which notes a plan carries, each if and only if: its strategy, a total above 500, and each unselective and slow step |
| `Planner.StepsAreOrderedPermutation` | rust-core/verisim-planner/src/optimizer.rs:79-87 | the steps take every node once: temporal, vector, document, graph, tensor, and semantic nodes in that order, each kind by time, ties as they came |
| `Planner.OneStableOrder` | rust-core/verisim-planner/src/optimizer.rs:79-87 | there is only one such order, whatever sorting algorithm finds it |
| `Planner.OrderOfNodesIsIrrelevant` | rust-core/verisim-planner/src/optimizer.rs:89-147 | strategy and total cost do not depend on the order of the nodes |
| `Planner.TotalCoversTime` | rust-core/verisim-planner/src/cost.rs:86-129 | total input and output plus processor cost is the total time when sequential and at least that when parallel |
| `Planner.NoStepOutlastsPlan` | rust-core/verisim-planner/src/cost.rs:86-129 | the total time is at least the time of every step |
| `Tokenizer.Tokenize` | rust-core/verisim-api/src/vql.rs:106-137 | the character loop with its two quote flags computes the tokens of `Tokenizer.TokensExactly` |
| `Tokenizer.QuotesExactly` | rust-core/verisim-api/src/vql.rs:114-121 | a position is outside quotes if and only if the text before it is made of pieces without quotes and closed spans (a quote, anything but that quote, that quote), and inside one of the two quotes if and only if such text is followed by that quote and not by another one of its kind |
| `Tokenizer.TokensExactly` | rust-core/verisim-api/src/vql.rs:106-137 | a list is the token list if and only if the input is that list laid out with blanks: non-empty tokens without a blank outside quotes, in the sense of `Tokenizer.QuotesExactly`, every quote closed in all but the last, at least one blank between two |
| `Tokenizer.NothingElseIsLost` | rust-core/verisim-api/src/vql.rs:106-137 | tokens are non-empty, and joined without blanks they are the input minus exactly its unquoted blanks |
| `Tokenizer.JoinedRoundTrip` | rust-core/verisim-api/src/vql.rs:106-137 | tokens joined by single blanks tokenize to themselves, an unbalanced last quote included |

## Left out

- Machine widths: versions, counters, and row counts are unbounded, except the 32-bit count of the rate limiter.
- Interleavings of the graph stores, where each operation is one step, and of the hexad store inside its work under a transaction: it is cut where it reads and changes the registry, and other users of the transaction manager may act at those places.
- Detection of deadlocks between upgrades: the code adds no edge for them, so nothing is claimed.
- Transaction timestamps, `get_transaction_state`, `active_count`, `current_version`: single reads.
- The serialisation of edges and the errors of redb, of poisoned locks, and of file access: edges are stored as themselves, and the three tables change together.
- IRIs, predicates, and literal values are byte strings; UTF-8 validity is not modelled.
- The statistics counters of the plan cache and the values of parameters; which characters beyond ASCII are alphanumeric is a parameter.
- `active_conflicts`, `by_entity`, and `auto_resolve_threshold`, which resolution never consults.
- API keys, JWT claims, roles, HMAC, and SHA-256.
- Hexads.HexadStore.Create: rejected inputs (a wrong vector dimension, tensor shape, or coordinate) appear as writes that fail without effect.
- The undo of graph, semantic, provenance, and spatial writes, which the code does not attempt; searches over hexads; replay of the write-ahead log.
- PlanCosts.Estimate: floating-point rounding and NaN. The logarithm is an arbitrary function floored at one.
- The wording of operations, hints, and notes, which are kept as values.
- Undo lists applied out of the order they are handed out in.
- Cross-modal condition costs, the statistics collector, and `explain`.
- Everything of the query language beyond `tokenize`, and the HTTP, GraphQL, gRPC, and federation layers.
- Drift measurement, regeneration, and normalizer strategies.
