# Arenyxa: a verified model of its state machines

A Dafny model of the parts of Arenyxa whose behaviour is hardest to see from one function at a time, with
proofs about every input, every run or every reachable state. `dafny verify dfyconfig.toml` checks it all.

1. **JSON schema inference and merge** (`SchemaModel`, `SchemaMerge`, `SchemaLaws`, `SchemaShape`, `SchemaOrder`,
   `SchemaSettled`, `SchemaAcceptance`, `SchemaInference`, `SchemaTruncation`, `SchemaBudget`, `ApiMap`). Schemas are a recursive
   datatype; the merge is compared with a reference join that is commutative and associative, and with a notion of which
   values (RFC 8259, section 3) a schema describes. A truncated object claims only its type and its required
   keys, a truncated array only its type, and array items are described as far as they are sampled.
2. **Per-host fair request scheduler** (`RunLedger`, `HostQueues`, `HostTurns`, `PendingScan`, `AsyncRunner`). A class with
   the queues and the books of a run. What limiter, gate and rate limiter answer each time, which requests succeed, when
   the run is cancelled, which writes fail and which limits are read are parameters; the order in which tasks finish is
   arbitrary.
3. **Pinned selector versions** (`VersionPruning`, `SelectorTally`, `SelectorStore`). Every method is one critical
   section; other threads may run any of them in between. A log of added versions and recorded outcomes explains
   every counter.
4. **Backup, upgrade, rollback, migrations** (`UpgradeModel`, `Upgrades`, `Migrations`,
   `DefaultMigrations`). The data root is a map from path to bytes, the backup root a directory value. Which file
   operations fail, and at which of them a backup is stopped, are parameters; any may.
5. **Browser contexts and the worker pool** (`ContextHistory`, `ContextBook`, `BrowserWorker`, `PoolProtocol`,
   `Browsers`). Opening and closing may fail; workers proceed whenever a call of the pool can wait.
6. **Backoff, verification tickets, feedback priors** (`BackoffRuns`, `Governor`, `VerificationTickets`,
   `PriorFormula`, `Experience`, `SelectorRanking`, `AutopilotValidation`). Clock readings are arguments.

Shared: `Ordering` (sorted keys), `Sequences` (facts about sequences) and `Occurrences` (what happens at numbered points).

## Where the code falls short

Each of these has a lemma with the exact condition, a concrete example, or both.

- The `optional` marks on union variants depend on the order of the samples (`SchemaOrder.OrderChangesMarks`).
  They do not if and only if no position is undecided: several types occur there, it is missing somewhere, and one
  of the types occurs as a plain schema and is marked by none (`SchemaSettled.ReorderedMergeExact`).
- A task that is cancelled before its first step never gives back its host lease and its gate slot, as when a run
  is cancelled right after a fill (`AsyncRunner.CancelledBeforeFirstStep`). What an ended run still holds is exactly
  that (`AsyncRunner.AsyncRun.Shutdown`).
- A store file can hold version ids that the code never makes. A lease on a version whose id does not count as true
  (empty, `null`, 0) is counted on entry and never given back (`SelectorStore.LeakedPin`); the pin table is restored
  exactly if the latest version's id does (`SelectorStore.AdaptiveSelectorStore.LeaseAlone`). A lease protects its
  version from pruning exactly if the id is a string (`SelectorStore.PinProtects`); otherwise the version can go while
  it is leased, and `record_result` raises (`SelectorStore.LeasedButPruned`).
- A rollback does not restore a listed file that is also a side file of a listed database, unless a database listed
  later puts it back (`UpgradeModel.RestoreExact`); `Upgrades.BackupWithLog` is such a backup.
- `backup` finishes backups that `verify_backup` then refuses. In the transaction that made it, exactly those with more
  than 10000 files or 128 databases (`Upgrades.OwnBackupUsable`; `Upgrades.BackupTooMany`). In a
  transaction opened later, also those whose manifest is larger than 4 MiB, as with 9000 files with long paths
  (`Upgrades.ReopenedBackupUsable`; `Upgrades.BackupTooLong`).
- `_journal` writes journals that it refuses to read later, exactly those larger than 2 MiB. Nothing shortens such a
  journal, so no upgrade starts any more (`Upgrades.JournalRefusedForever`, `Upgrades.JournalOutgrown`,
  `Upgrades.UpgradeTransaction.Execute`).
- When the journal cannot be written after a rollback, the journal's error replaces the action's error
  (outcomes `RolledBackUnlogged` and `RollbackUnlogged` of `Upgrades.UpgradeTransaction.Execute`, with the
  condition for each when no file operation fails).
- The default migrations come back unchanged under the conditions of `DefaultMigrations.SettingsRoundTrip`,
  `WorkflowRoundTrip` and `PluginRoundTrip` only; a version 0 workflow without metadata keeps the added metadata.
- A failed change of profile can leave a worker with fewer recent sessions cached than would fit
  (`ContextHistory.FailedChangeLeavesRoom`), exactly if more sessions are in use than fit
  (`ContextHistory.FailedChangeExact`), until that gap is closed (`ContextHistory.CachesMostRecent`).
- `close` of the browser pool waits for ever if a worker died and left a full queue: it can finish if and only if
  there is no such worker (`PoolProtocol.CloseCanFinish`), and `Browsers.ClosesNever` is a pool that has one.

## Model

| member | source | states |
|---|---|---|
| SchemaMerge.Merge | src/arenyxa/application/api_map.py:419-454 | `_merge_schema` and `_merge_schema_union` end on all schemas: a merge is never higher than the higher side and keeps the type two sides share, which is what makes the mutual recursion go down; flags are joined |
| SchemaLaws.UnionPointwise | src/arenyxa/application/api_map.py:464-497 | regrouping variants into buckets gives exactly the pointwise merge of the two sides, type by type |
| SchemaLaws.MergeCanonical | src/arenyxa/application/api_map.py:419-497 | canonical form (plain variants, one per type, sorted, at least two; `required` is exactly the properties not marked optional; nothing below the depth limit) is kept by every merge |
| SchemaLaws.MergeCommutes | src/arenyxa/application/api_map.py:419-497 | on canonical schemas the order of the two arguments does not matter |
| SchemaLaws.ShortcutUnobservable | src/arenyxa/application/api_map.py:421-422 | the equality test at the start is only a short cut: the code after it returns the same schema for equal arguments |
| SchemaShape.JoinCommutes | src/arenyxa/application/api_map.py:419-497 | the reference join of schema meanings is commutative |
| SchemaShape.JoinAssociative | src/arenyxa/application/api_map.py:419-497 | the reference join of schema meanings is associative |
| SchemaShape.ViewMerge | src/arenyxa/application/api_map.py:419-497 | the code refines the reference: the meaning of a merge is the join of the meanings, through nested objects, arrays and unions |
| SchemaOrder.EqualViewsAgree | src/arenyxa/application/api_map.py:419-497 | canonical schemas with the same meaning are equal up to the `optional` marks on union variants |
| SchemaOrder.AgreeingViewsEqual | src/arenyxa/application/api_map.py:419-497 | and conversely: schemas equal up to those marks have the same meaning |
| SchemaOrder.MergeAssociative | src/arenyxa/application/api_map.py:419-497 | grouping does not matter, up to those marks |
| SchemaOrder.MergeAllView | src/arenyxa/application/api_map.py:386-390 | the fold over any list of schemas is canonical and means the join of all their meanings |
| SchemaOrder.ReorderedMerge | src/arenyxa/application/api_map.py:386-390 | any reordering folds to the same schema up to those marks |
| SchemaSettled.FoldBelow | src/arenyxa/application/api_map.py:386-444 | the fold at a position below is the fold of what the schemas, in their order, say there |
| SchemaSettled.FoldTallies | src/arenyxa/application/api_map.py:475-497 | a variant of the fold is marked if any schema marked it, and otherwise only if its type was seen as a plain schema at a position that was missing |
| SchemaSettled.SettledFolds | src/arenyxa/application/api_map.py:386-390 | where every position is settled, every order folds to the same schema, marks included |
| SchemaSettled.UnsettledFolds | src/arenyxa/application/api_map.py:386-390 | where some position is not, two orders fold to different schemas |
| SchemaSettled.ReorderedMergeExact | src/arenyxa/application/api_map.py:386-390 | all orders of a list of schemas fold to the same schema if and only if every position is settled: nowhere do two types occur, the position is missing, and one of the types occurs plain without any schema marking it |
| SchemaOrder.OrderChangesMarks | src/arenyxa/application/api_map.py:433-437 | the marks do depend on the order: two orders of the same three samples give different schemas |
| SchemaAcceptance.MergeAcceptsLeft | src/arenyxa/application/api_map.py:419-497 | a value the left side describes is described by the merge, for all values and canonical schemas |
| SchemaAcceptance.MergeAcceptsBoth | src/arenyxa/application/api_map.py:419-497 | a value either side describes is described by the merge |
| SchemaInference.InferDescribes | src/arenyxa/application/api_map.py:392-417 | an inferred schema is canonical for its depth and describes the value it was inferred from, whatever the depth limit and key budget |
| SchemaInference.MergeAllAccepts | src/arenyxa/application/api_map.py:386-390 | a fold describes whatever any of its members describes |
| SchemaInference.SamplesAccepted | src/arenyxa/application/api_map.py:382-390 | the schema of any list of samples is canonical and describes every sample |
| SchemaInference.SamplesReordered | src/arenyxa/application/api_map.py:382-390 | reordering the samples changes at most the marks on union variants |
| SchemaInference.SamplesReorderedExact | src/arenyxa/application/api_map.py:382-390 | the order of the samples does not matter at all if and only if every position of their schemas is settled |
| SchemaInference.ObjectsFold | src/arenyxa/application/api_map.py:428-444 | folding object schemas gives the union of their properties and the intersection of their required keys |
| SchemaTruncation.RootKeys | src/arenyxa/application/api_map.py:395-444 | for object samples whose own keys fit the key budget the root lists every key that occurs and requires exactly the keys that always occur |
| SchemaInference.AcceptedTypeListed | src/arenyxa/application/api_map.py:475-497 | a schema describes only values of a type it lists |
| SchemaInference.OnlySampledTypes | src/arenyxa/application/api_map.py:382-390 | a value whose type no sample had is not described |
| SchemaInference.CanonicalHeight | src/arenyxa/application/api_map.py:393-394 | nesting never exceeds the depth limit |
| SchemaTruncation.InferMarks | src/arenyxa/application/api_map.py:392-417 | below the depth limit exactly the objects with a key that is not listed are marked truncated, at every level, and scalars and arrays never are; at the limit every node is |
| SchemaTruncation.FirstKeysListed | src/arenyxa/application/api_map.py:396-401 | the keys that are listed when the budget runs out are the first in sorted order |
| SchemaTruncation.InferWhole | src/arenyxa/application/api_map.py:392-417 | inference spends the number of keys within the depth limit and the first eight items, as long as the budget lasts, and leaves no mark above the limit if and only if the budget covers them |
| SchemaTruncation.MergeWhole | src/arenyxa/application/api_map.py:419-497 | a merge is without marks above the limit if and only if both sides are |
| SchemaTruncation.SamplesWhole | src/arenyxa/application/api_map.py:382-417 | the schema of an endpoint has no mark above the limit if and only if every sample fits the key budget |
| SchemaTruncation.WholeListsAll | src/arenyxa/application/api_map.py:392-497 | a schema that describes a value and has no mark above the limit lists every key of it, at every level |
| SchemaTruncation.SamplesListed | src/arenyxa/application/api_map.py:382-417 | so if every sample fits the key budget, every key of every sample is listed |
| SchemaTruncation.OwnKeysListed | src/arenyxa/application/api_map.py:395-408 | an object lists all its own keys if and only if the budget covers them and all that lies below every one but the last |
| SchemaModel.VariantsSorted | src/arenyxa/application/api_map.py:475-497 | the variants of a canonical union are one per type, in the order of the written type names |
| SchemaModel.TypeNames | src/arenyxa/application/api_map.py:549-565 | which values have which written type name |
| SchemaBudget.MergeEntries | src/arenyxa/application/api_map.py:419-497 | merging never adds property entries |
| SchemaBudget.InferEntries | src/arenyxa/application/api_map.py:392-417 | inference creates at most as many property entries as it takes from the threaded key budget, array items merged |
| SchemaBudget.SampleEntries | src/arenyxa/application/api_map.py:383-417 | one sample never yields more property entries than `max_schema_keys` |
| ApiMap.ApiMapService.constructor | src/arenyxa/application/api_map.py:117-118 | depth and key limits are clamped to 1..8 and 8..512: the value itself in range, the nearer end otherwise |
| ApiMap.ApiMapService.InferSchema | src/arenyxa/application/api_map.py:392-417 | the loops over the shared budget cell compute the specification and leave the budget it leaves |
| ApiMap.ApiMapService.InferProperties | src/arenyxa/application/api_map.py:396-401 | keys in sorted order, each charged before its value is read, until the budget is used up |
| ApiMap.ApiMapService.InferElements | src/arenyxa/application/api_map.py:411-412 | the first eight elements in order, all on the same budget |
| ApiMap.ApiMapService.MergeList | src/arenyxa/application/api_map.py:387-390 | the loop is the left fold of the merge |
| ApiMap.ApiMapService.MergeSchemaSamples | src/arenyxa/application/api_map.py:382-390 | a budget of its own for each sample; no schema exactly for no samples; the schema is canonical and describes every sample |
| RunLedger.BalancedAdmit | src/arenyxa/application/async_runner.py:130-135 | admission keeps the books: one lease, one gate slot and one count for the new task |
| RunLedger.BalancedFinish | src/arenyxa/application/async_runner.py:119-128 | a task that ends gives back exactly its own lease and slot |
| RunLedger.BalancedRecord | src/arenyxa/application/async_runner.py:448-453 | a finished task leaves flight and is recorded (or dropped) once |
| RunLedger.BalancedAbandon | src/arenyxa/application/async_runner.py:496-502 | a task cancelled before its first step leaves flight, and its lease and slot stay taken |
| RunLedger.HeldAtEnd | src/arenyxa/application/async_runner.py:124-128 | with no task in flight exactly the leases and slots of tasks cancelled before their first step are held |
| RunLedger.AllRecorded | src/arenyxa/application/async_runner.py:448-453 | with nothing in flight and nothing dropped, what was recorded is exactly what was admitted, and the counters agree |
| HostQueues.OrderlyAdvance | src/arenyxa/application/async_runner.py:182-188 | admitting a deferred host keeps: admitted, deferred and pending requests of each host, in this order, are the host's requests; the host queue lists exactly the hosts with a bucket |
| HostQueues.OrderlyDefer | src/arenyxa/application/async_runner.py:199-210 | deferring the first pending request keeps the same |
| HostQueues.OrderlyAdmit | src/arenyxa/application/async_runner.py:196-211 | admitting the first pending request keeps the same, as its host has no bucket |
| HostQueues.AdmittedInOrder | src/arenyxa/application/async_runner.py:160-211 | in every reachable state the requests of a host were admitted in their original order |
| HostQueues.EachInOnePlace | src/arenyxa/application/async_runner.py:160-211 | every request is pending, deferred in the bucket of its own host, or admitted, exactly as often as it was asked for |
| HostQueues.AllAdmitted | src/arenyxa/application/async_runner.py:430-465 | with both queues empty, every request was admitted exactly once and each host's in order |
| AsyncRunner.EachInOneState | src/arenyxa/application/async_runner.py:137-212 | in every reachable state each request is pending, deferred by its own host, in flight, recorded or dropped, exactly as often as it was asked for |
| AsyncRunner.CancelledBeforeFirstStep | src/arenyxa/application/async_runner.py:130-135 | one admission and a cancellation at the next turn: nothing is in flight and a lease and a slot are held for good |
| AsyncRunner.AsyncRun.Admit | src/arenyxa/application/async_runner.py:97-135 | which of the three answers comes back for each combination of limiter, gate and rate limiter, and that every refusal leaves leases and slots as they were |
| AsyncRunner.AsyncRun.TryFirstHost | src/arenyxa/application/async_runner.py:164-188 | full gate: the queues are unchanged; refusal: the host goes to the back; admission: its bucket shrinks and it goes to the back or leaves |
| AsyncRunner.AsyncRun.FillDeferred | src/arenyxa/application/async_runner.py:158-188 | the loop ends; each time it tries the first deferred host, and the queues and the admitted requests are what the answers make of them; every 64th try has its checkpoint, and the loop is interrupted exactly if one saw the cancellation; it stops early otherwise only when the capacity is used, no host is deferred, the gate was full in this call, or every host still deferred was refused in this call, one after the other, since the last admission |
| HostTurns.TurnsAsQueued | src/arenyxa/application/async_runner.py:160-188 | from any try on, the deferred hosts have their turns in the order in which they are queued then |
| HostTurns.RoundRobin | src/arenyxa/application/async_runner.py:160-188 | between two tries of one host every other host that is deferred then is tried |
| AsyncRunner.AsyncRun.TryFirstPending | src/arenyxa/application/async_runner.py:196-211 | a pending entry joins the bucket its host has without being tried; otherwise its admission is tried exactly once, and it is admitted, starts a bucket on refusal, or goes back in front at a full gate, as the answer says |
| AsyncRunner.AsyncRun.FillPending | src/arenyxa/application/async_runner.py:190-212 | the scan admits at most the capacity; queues, attempts and admitted requests are exactly what the answers make of the entries, one step each; every 256th entry has its checkpoint; entries are left behind only at the capacity, at a gate that was full in this call, or when a checkpoint saw the cancellation |
| PendingScan.EntriesLeave | src/arenyxa/application/async_runner.py:190-211 | until a full gate each step settles the next entry of the pending queue as it was |
| PendingScan.TriedUnlessBehind | src/arenyxa/application/async_runner.py:196-211 | in a scan an entry is not tried if and only if its host had a bucket before, or an earlier entry of its host was refused in this scan |
| AsyncRunner.AsyncRun.Defer | src/arenyxa/application/run_execution.py:206-217 | a new bucket queues its host once, an old one only grows |
| AsyncRunner.AsyncRun.Fill | src/arenyxa/application/async_runner.py:137-212 | the turns of the deferred hosts and then the scan, both determined by the answers; it raises for resource pressure, or exactly if one of its checkpoints saw the cancellation; tasks in flight are never lifted above the request limit that was read; a fill that ends below that limit met a full gate, or left nothing pending and had every host that is deferred then refused |
| AsyncRunner.AsyncRun.Collect | src/arenyxa/application/async_runner.py:448-464 | exactly the tasks that had finished are recorded, in any order, one outcome each, with the success and failure counts of what was recorded; it fails exactly if a write does, and ends the run as cancelled only at a task that was cancelled |
| AsyncRunner.AsyncRun.Step | src/arenyxa/application/async_runner.py:430-465 | one turn of the main loop keeps every invariant and forgets no admission; it is cancelled or fails only for a reason, which is stated, and otherwise it records exactly the tasks that had finished when its wait was over, and fills up again |
| AsyncRunner.AsyncRun.Shutdown | src/arenyxa/application/async_runner.py:492-508 | after the `finally` nothing is in flight; exactly the leases of the tasks cancelled before their first step are still held, so nothing is held if and only if every task in flight had started |
| AsyncRunner.AsyncRun.Execute | src/arenyxa/application/async_runner.py:422-471 | a completed run admitted and recorded every request exactly once, each host's in order, counted exactly its successes and failures, and holds nothing; any other ended run holds exactly the leases and slots of tasks cancelled before their first step, and a failed one counts one more failure; a run is cancelled only by its token or a cancelled task, fails only at a write or for resource pressure, and one that goes on has work left and was filled up to the limit read in its last turn |
| VersionPruning.DropFirst | src/arenyxa/application/adaptive_extraction.py:118-131 | removing the first removable version again and again is dropping them in one pass |
| VersionPruning.DropKeeps | src/arenyxa/application/adaptive_extraction.py:118-132 | pruning keeps every kept version and invents none |
| VersionPruning.DropEnough | src/arenyxa/application/adaptive_extraction.py:118-132 | afterwards the bucket is within its limit or holds kept versions only |
| VersionPruning.DropUnique | src/arenyxa/application/adaptive_extraction.py:118-132 | version ids stay unique |
| SelectorStore.LeaseBalanced | src/arenyxa/application/adaptive_extraction.py:91-105 | entering and leaving a lease restores the pin table exactly when the leased id counts as true |
| SelectorStore.PinProtects | src/arenyxa/application/adaptive_extraction.py:92-125 | a lease makes pruning spare its version exactly if the version id is a string, or its text is pinned anyway |
| SelectorStore.RememberValid | src/arenyxa/application/adaptive_extraction.py:75-76 | a new version joins its bucket, pruning spares it and every pinned version, and the bucket holds at most the limit, or all pinned versions and one more |
| SelectorStore.RememberQueue | src/arenyxa/application/adaptive_extraction.py:75-76 | without pins the bucket is a queue of the last `max_versions_per_key` versions |
| SelectorStore.QueueAgain | src/arenyxa/application/adaptive_extraction.py:75-76 | once a key is not leased any more and `max_versions_per_key` versions were appended since, its bucket is that queue again; a key that never was leased always has that queue |
| SelectorStore.LeasedStays | src/arenyxa/application/adaptive_extraction.py:84-108 | in every reachable state a leased version is in its bucket |
| SelectorStore.LoadedStore | src/arenyxa/application/adaptive_extraction.py:46-57 | a store as loaded meets the invariants exactly if its buckets have unique ids that are strings and not empty, and are within the limit |
| SelectorStore.AdaptiveSelectorStore.constructor | src/arenyxa/application/adaptive_extraction.py:34-57 | the limit is clamped to 4..2048, and any rows may be loaded |
| SelectorTally.CountsAdded | src/arenyxa/application/adaptive_extraction.py:68-76 | a version starts with no successes and no failures, and every counter stays what the log of added versions and recorded outcomes adds up to |
| SelectorTally.CountsRecorded | src/arenyxa/application/adaptive_extraction.py:134-143 | a recorded outcome moves one counter of one version by one, and every counter stays what the log adds up to |
| SelectorStore.AdaptiveSelectorStore.LeaseAlone | src/arenyxa/application/adaptive_extraction.py:84-108 | on any loaded rows, a lease leaves the pin table as it was exactly if there was no version or the latest has an id that counts as true |
| SelectorStore.LeakedPin | src/arenyxa/application/adaptive_extraction.py:84-108 | one version with an empty, null or zero id in the store file, used once: a pin that nothing removes |
| SelectorStore.LeasedButPruned | src/arenyxa/application/adaptive_extraction.py:68-143 | one version with an id that is not a string: while it is leased four new versions push it out of a bucket of four, and recording its result fails |
| SelectorStore.AdaptiveSelectorStore.Prune | src/arenyxa/application/adaptive_extraction.py:110-132 | the deleting loop computes the one-pass pruning |
| SelectorStore.AdaptiveSelectorStore.Remember | src/arenyxa/application/adaptive_extraction.py:68-78 | on any rows, the first version with that id is only touched, or a new one is appended and the bucket pruned, which spares it; the invariants and the counters are kept |
| SelectorStore.AdaptiveSelectorStore.Acquire | src/arenyxa/application/adaptive_extraction.py:89-94 | a snapshot with its latest version pinned, one more lease |
| SelectorStore.AdaptiveSelectorStore.Leave | src/arenyxa/application/adaptive_extraction.py:97-108 | one pin less, and the bucket may shrink to its limit again; nothing at all for an id that does not count as true |
| SelectorStore.AdaptiveSelectorStore.Release | src/arenyxa/application/adaptive_extraction.py:97-108 | returning a lease keeps the store valid |
| SelectorStore.AdaptiveSelectorStore.RecordResult | src/arenyxa/application/adaptive_extraction.py:134-143 | on any rows, counts one outcome on the first version with that id, and fails exactly if there is none; the invariants are kept, and every counter is what was recorded |
| SelectorStore.AdaptiveSelectorStore.Interfere | src/arenyxa/application/adaptive_extraction.py:63-143 | any interleaving of other threads' calls keeps the store valid, its counters explained by its log, and this thread's leases |
| SelectorStore.AdaptiveSelectorStore.Resolve | src/arenyxa/application/adaptive_extraction.py:160-181 | whatever other threads do in between: the status is what the analysis says, and this thread adds exactly one success of the leased version if it matched once, one failure if it needs review, at most the healed version if it healed, and nothing otherwise; `record_result` never raises `KeyError`; without other threads the pins are as before and the leased version's two counters move by exactly that |
| UpgradeModel.VerifiedAgree | src/arenyxa/release_hardening.py:493-526 | two backups that pass verification against one manifest hold the same bytes for everything it lists |
| UpgradeModel.DatabasesAt | src/arenyxa/release_hardening.py:538-560 | what restoring the databases leaves at a path is the last thing done there: a copy, a removal, or nothing |
| UpgradeModel.RestoreExact | src/arenyxa/release_hardening.py:528-560 | a rollback brings every listed file and database back exactly when no listed path is removed last as a side file of a database, nor listed both ways with different content |
| Upgrades.JournalKeepsLast | src/arenyxa/release_hardening.py:613-643 | after any run of events the journal holds exactly the last 256 of all events ever appended, as long as it never grew larger than `_journal` reads |
| Upgrades.JournalRefusedForever | src/arenyxa/release_hardening.py:613-622 | a journal that is unreadable or larger than 2 MiB takes no event any more |
| Upgrades.JournalOutgrown | src/arenyxa/release_hardening.py:613-643 | 256 migrations of files with paths of more than 8192 characters make such a journal |
| Upgrades.OwnBackupUsable | src/arenyxa/release_hardening.py:470-526 | a finished backup passes verification by the transaction that made it exactly when it lists at most 10000 files and 128 databases, which `backup` does not enforce |
| Upgrades.ReopenedBackupUsable | src/arenyxa/release_hardening.py:470-526 | and by a transaction opened later exactly when moreover its manifest is at most 4 MiB, which `backup` does not enforce either |
| Upgrades.BackupWithLog | src/arenyxa/release_hardening.py:374-468 | `backup` takes a database together with its `-wal` file, and the verified backup, restored, never brings that file back |
| Upgrades.BackupTooMany | src/arenyxa/release_hardening.py:374-526 | `backup` finishes with 10001 files, and `verify_backup` then refuses |
| Upgrades.BackupTooLong | src/arenyxa/release_hardening.py:374-561 | `backup` finishes with 9000 files in a deep directory and its own `verify_backup` passes; a transaction opened later refuses and cannot restore |
| Upgrades.RestoresTheSame | src/arenyxa/release_hardening.py:528-560 | a backup that the action touched, if it still passes verification, restores the bytes that were backed up before the action |
| Upgrades.UpgradeTransaction.Backup | src/arenyxa/release_hardening.py:374-468 | wherever a fault or a crash hits, the backup root is as it was, absent, or a complete backup; a non-empty root is never touched; a finished backup lists every source with its bytes, in order; unless one hits in this call it finishes exactly if the root is empty and every source is there and small enough |
| Upgrades.UpgradeTransaction.LoadManifest | src/arenyxa/release_hardening.py:470-491 | the manifest in memory, or the one on disk if it belongs to this data root and is at most 4 MiB |
| Upgrades.UpgradeTransaction.VerifyBackup | src/arenyxa/release_hardening.py:493-526 | success means every listed copy is there with its size and digest; unless an operation of this call fails it succeeds exactly if they are |
| Upgrades.UpgradeTransaction.AppendJournal | src/arenyxa/release_hardening.py:613-643 | one event more, or nothing changed but an absent directory created; unless an operation of this call fails it fails exactly for a journal that is unreadable or larger than 2 MiB, which is never replaced |
| Upgrades.UpgradeTransaction.RestoreDatabase | src/arenyxa/release_hardening.py:540-560 | replaces the file and clears its three side files; a fault at any step touches nothing else, and it fails only at one |
| Upgrades.UpgradeTransaction.Restore | src/arenyxa/release_hardening.py:528-561 | success is the restored data and one journal event; even a failure touches only listed paths and the side files of listed databases; unless an operation of this call fails, the data is restored exactly if the backup is usable, even if the journal then refuses the event |
| Upgrades.UpgradeTransaction.Execute | src/arenyxa/release_hardening.py:596-611 | for every action and every fault: committed as the last event with the action's data, or rolled back to the bytes backed up before, or the failed rollback is reported with everything unlisted as the action left it; without faults in this call each outcome occurs exactly under its condition; if a single operation fails around an action that did not raise and left backup and journal usable, it ends before the action, in a commit, or in a full rollback |
| Migrations.RollbackUndoes | src/arenyxa/release_hardening.py:197-212 | rolling back a migration of any length gives the payload it started from, if each step undoes itself where it was used |
| Migrations.UpgradedInTwo | src/arenyxa/release_hardening.py:197-204 | migrating to a version in between and on from there is migrating in one go |
| Migrations.DowngradedInTwo | src/arenyxa/release_hardening.py:206-212 | the same for rolling back |
| Migrations.MigrationRegistry.DefinePolicy | src/arenyxa/release_hardening.py:158-161 | a policy is stored exactly if its versions are in order and not negative |
| Migrations.MigrationRegistry.Register | src/arenyxa/release_hardening.py:163-169 | a step is stored exactly if it advances one version and is the first for its version |
| Migrations.MigrationRegistry.Plan | src/arenyxa/release_hardening.py:177-195 | the path of registered steps from start to target, or exactly which of the three conditions fails |
| Migrations.MigrationRegistry.Migrate | src/arenyxa/release_hardening.py:197-204 | the registered path run on the payload; an invalid output exactly if that path gives one, and otherwise exactly the error of the plan |
| Migrations.MigrationRegistry.Rollback | src/arenyxa/release_hardening.py:206-212 | the downgrades in reverse order, or an error if one is missing |
| DefaultMigrations.SettingsRoundTrip | src/arenyxa/release_hardening.py:215-238 | settings come back from version 9 unchanged exactly if they had none of the eight new keys and said version 8 |
| DefaultMigrations.WorkflowRoundTrip | src/arenyxa/release_hardening.py:241-254 | a workflow comes back unchanged exactly if it was a version 0 file with metadata and without a digest |
| DefaultMigrations.WorkflowMigratesAgain | src/arenyxa/release_hardening.py:241-254 | migrating a rolled-back workflow gives the migrated workflow again |
| DefaultMigrations.PluginRoundTrip | src/arenyxa/release_hardening.py:257-268 | a plugin manifest comes back unchanged exactly if it had neither key |
| DefaultMigrations.SettingsHold | src/arenyxa/release_hardening.py:215-238 | migrated settings keep every value the user had, get each of the eight new keys with its default where it was absent, say version 9, and have no other key; rolled back, the eight keys are gone, the version is 8 and nothing else is changed |
| DefaultMigrations.WorkflowHolds | src/arenyxa/release_hardening.py:241-254 | a migrated workflow names schema v1, keeps its metadata or gets the default, carries the digest of everything else in it, and is otherwise unchanged; rolled back it names v0 and has no digest |
| DefaultMigrations.PluginHolds | src/arenyxa/release_hardening.py:257-268 | a migrated plugin manifest keeps its two version keys or gets the defaults, and is otherwise unchanged; rolled back it has neither |
| DefaultMigrations.MigrateDefault | src/arenyxa/release_hardening.py:177-290 | so for each of the three kinds through the default registry's own `migrate` and `rollback`, for every payload |
| ContextHistory.RecentsByLastUse | src/arenyxa/application/browser_engine.py:271-272 | the reference list of recent sessions is exactly the sessions in use, ordered by their last use |
| ContextHistory.FollowsUsed | src/arenyxa/application/browser_engine.py:262-279 | handing out a context keeps: the cache is the end of that list, within its limit, each session with the profile it last asked for |
| ContextHistory.FollowsDropped | src/arenyxa/application/browser_engine.py:263-268 | a failed change of profile keeps the same |
| ContextHistory.CachesMostRecent | src/arenyxa/application/browser_engine.py:256-279 | in every run the cached sessions are, in order, exactly the last `max_sessions_per_worker` distinct ones in use if and only if the history leaves no gap |
| ContextHistory.NoGap | src/arenyxa/application/browser_engine.py:256-279 | a history without failed changes of profile leaves none |
| ContextHistory.FailedChangeExact | src/arenyxa/application/browser_engine.py:263-268 | where there was no gap, a failed change of profile leaves none exactly if no more sessions are in use than fit |
| ContextHistory.FailedChangeLeavesRoom | src/arenyxa/application/browser_engine.py:263-268 | a three-session run in which it leaves one |
| ContextBook.ExactlyOnePlace | src/arenyxa/application/browser_engine.py:256-279 | every context ever created is exactly one of cached, closed once, or in use by a request of its own |
| ContextBook.ClosedExactlyOnce | src/arenyxa/application/browser_engine.py:503-509 | once the worker is closed, every context it created was closed exactly once |
| BrowserWorker.PlaywrightBrowserWorker.Evict | src/arenyxa/application/browser_engine.py:273-278 | the least recently used contexts leave and are closed until the rest fits |
| BrowserWorker.PlaywrightBrowserWorker.ContextFor | src/arenyxa/application/browser_engine.py:256-279 | a context is reused exactly if it is cached with the profile asked for; afterwards it is the most recent one; it raises exactly if a needed close or creation does, which keeps the books and loses at most the context whose profile changed |
| BrowserWorker.PlaywrightBrowserWorker.Fetch | src/arenyxa/application/browser_engine.py:281-500 | which context the request gets, whether it raises and what it leaves in the history are determined by cache, profile and failing calls; a context of the request's own is closed, a session's context stays, and nothing is in use afterwards |
| BrowserWorker.PlaywrightBrowserWorker.Close | src/arenyxa/application/browser_engine.py:503-509 | closes every cached context once, in order, and forgets them |
| PoolProtocol.AcceptKeeps | src/arenyxa/application/browser_engine.py:600-616 | taking on a request keeps the protocol: every queue carried what was assigned to its worker and then at most one sentinel |
| PoolProtocol.TakeKeeps | src/arenyxa/application/browser_engine.py:572-585 | a worker that takes an item keeps the protocol, and stops exactly at the sentinel |
| PoolProtocol.SentinelKeeps | src/arenyxa/application/browser_engine.py:631-637 | enqueueing the sentinel of a closed pool keeps the protocol |
| PoolProtocol.NothingAfterSentinel | src/arenyxa/application/browser_engine.py:600-637 | no task follows a sentinel in any queue, and every request taken on for that worker precedes it |
| PoolProtocol.StoppedTookAll | src/arenyxa/application/browser_engine.py:572-577 | a worker that stopped took every request ever assigned to it, in order |
| PoolProtocol.SessionSticky | src/arenyxa/application/browser_engine.py:591-598 | all requests of a session go through one worker in the order they were taken on, and no other worker has any |
| PoolProtocol.TakenIsRouted | src/arenyxa/application/browser_engine.py:591-598 | a worker only takes requests of sessions that are routed to it |
| PoolProtocol.TookOne | src/arenyxa/application/browser_engine.py:567-589 | taking a task keeps: the contexts a worker handed out are, in order, for sessions and profiles of tasks it took |
| Browsers.BrowserPool.WorkerIndex | src/arenyxa/application/browser_engine.py:591-598 | sessions by digest, others in turn |
| Browsers.BrowserPool.Work | src/arenyxa/application/browser_engine.py:567-589 | a running worker takes what is first in its queue or dies, and neither changes what any queue carried; a task that was not cancelled is fetched with its own session and profile, at the sentinel or on death the worker's contexts are closed, and no other worker is touched |
| Browsers.BrowserPool.Fetch | src/arenyxa/application/browser_engine.py:600-616 | a closed pool refuses, a full queue refuses, and an accepted request is logged once, on the worker it is routed to; the rotation moves exactly for requests without a session |
| Browsers.BrowserPool.Close | src/arenyxa/application/browser_engine.py:626-637 | after it every queue ends in its sentinel and nothing new is accepted; closing again changes nothing; it is still waiting only at a full queue; with a worker that is gone and left a full queue it never finishes, however long it waits |
| PoolProtocol.FinishesUnlessBlocked | src/arenyxa/application/browser_engine.py:567-637 | from every state of `close` steps of workers and sentinels lead to its end if and only if no worker is gone with a full queue that still waits for its sentinel |
| PoolProtocol.CloseCanFinish | src/arenyxa/application/browser_engine.py:567-637 | so `close` of an open pool can finish if and only if no worker is gone and left a full queue |
| Browsers.ClosesNever | src/arenyxa/application/browser_engine.py:567-637 | one worker dies before its first request, 128 requests are taken on all the same, and `close` never finishes |
| PoolProtocol.StaysStuck | src/arenyxa/application/browser_engine.py:631-637 | whatever the workers do, such a queue stays full |
| PoolProtocol.TakeMakesRoom | src/arenyxa/application/browser_engine.py:572-585 | a running worker makes room with the next item it takes |
| Browsers.BrowserPool.CachedBound | src/arenyxa/application/browser_engine.py:273-274 | cached contexts never exceed workers times sessions per worker |
| Browsers.BrowserPool.OneWorkerPerSession | src/arenyxa/application/browser_engine.py:591-598 | no session has contexts in two workers |
| BackoffRuns.UpdatedValid | src/arenyxa/application/anti_bot_intelligence.py:288-302 | one observation keeps failures in 0..16 and the retry time within the backoff, and moves it back only by full recovery to zero failures |
| BackoffRuns.ObservationEffect | src/arenyxa/application/anti_bot_intelligence.py:288-302 | a block counts one more failure, up to 16, and puts the retry time off by the requested or the computed delay; another block changes neither; a response without one forgets a failure, and with the last one the retry time |
| BackoffRuns.FirstDelay | src/arenyxa/application/anti_bot_intelligence.py:294-298 | the first delay is 0.75 seconds for a rate limit and 0.5 for the other two blocks |
| BackoffRuns.NextDelay | src/arenyxa/application/anti_bot_intelligence.py:294-298 | each failure up to the sixteenth doubles the delay, within the longest backoff |
| BackoffRuns.RunValid | src/arenyxa/application/anti_bot_intelligence.py:278-302 | in every run, whatever order the clock readings come in, the table stays within its limit, failures in 0..16, retry times within the backoff of the latest reading |
| BackoffRuns.WaitBounded | src/arenyxa/application/anti_bot_intelligence.py:304-310 | no reported wait exceeds the longest backoff |
| BackoffRuns.StepKeepsPromise | src/arenyxa/application/anti_bot_intelligence.py:282-302 | a retry time moves earlier only by recovery to zero failures; a host is evicted only from a full table, for a new host, and if no other host may retry earlier |
| BackoffRuns.PromiseKept | src/arenyxa/application/anti_bot_intelligence.py:278-302 | over any stretch of a run without recovery or eviction of the host, its promised retry time never moves earlier |
| BackoffRuns.RequestHonoured | src/arenyxa/application/anti_bot_intelligence.py:294-298 | after a rate limit the retry time is at least as far off as the server asked for, within the longest backoff |
| BackoffRuns.RecoveryTakesAsMany | src/arenyxa/application/anti_bot_intelligence.py:289-293 | a host recovers after exactly as many unblocked responses as it has failures, and keeps its retry time until then |
| Governor.HostGovernor.constructor | src/arenyxa/application/anti_bot_intelligence.py:272-276 | limits are clamped to 16..100000 hosts and 1..3600 seconds |
| Governor.HostGovernor.Observe | src/arenyxa/application/anti_bot_intelligence.py:278-302 | every call is one step of such a run |
| Governor.HostGovernor.WaitSeconds | src/arenyxa/application/anti_bot_intelligence.py:304-310 | the time until the host's retry time if that is still ahead, 0 otherwise and for an unknown host, never more than the longest backoff |
| VerificationTickets.FinalForever | src/arenyxa/application/anti_bot_intelligence.py:207-256 | a ticket that is approved, rejected or expired never changes again, whatever is called later |
| VerificationTickets.TicketLeaves | src/arenyxa/application/anti_bot_intelligence.py:249-256 | a ticket that leaves the pending state leaves the pending ids with it, for the first and only time |
| VerificationTickets.HumanVerificationCoordinator.Expire | src/arenyxa/application/anti_bot_intelligence.py:249-256 | each pending ticket whose time is over expires, each other one is unchanged, and so is everything decided |
| VerificationTickets.HumanVerificationCoordinator.Issue | src/arenyxa/application/anti_bot_intelligence.py:207-224 | refuses other kinds and, after expiry, a full queue; otherwise adds one pending ticket, last in order, and changes no other |
| VerificationTickets.HumanVerificationCoordinator.Resolve | src/arenyxa/application/anti_bot_intelligence.py:226-241 | decides a ticket exactly if it is pending before its expiry and the operator is named, and says which condition fails otherwise |
| VerificationTickets.HumanVerificationCoordinator.PendingTickets | src/arenyxa/application/anti_bot_intelligence.py:243-247 | exactly the unexpired pending tickets, in the order they were issued |
| VerificationTickets.OnlyOrdered | src/arenyxa/application/anti_bot_intelligence.py:243-247 | of two tickets in that list the one issued earlier comes first |
| PriorFormula.Moves | src/arenyxa/application/autopilot.py:304-309 | k more outcomes, s of them successes, move the prior by (s - k p) / (n + 4 + k) |
| PriorFormula.PriorEven | src/arenyxa/application/autopilot.py:304-309 | without outcomes the prior is one half, and successes and failures count alike |
| PriorFormula.OneOutcome | src/arenyxa/application/autopilot.py:304-309 | one outcome moves the prior by less than 1 / (n + 5) |
| PriorFormula.OneReplaced | src/arenyxa/application/autopilot.py:304-309 | an outcome that pushes out another of its kind moves it by at most 1 / (n + 4) |
| PriorFormula.PoisonShift | src/arenyxa/application/autopilot_validation.py:56-60 | for every sample count from 40 on, the poison step lowers the unrounded prior, by less than 0.16 |
| PriorFormula.RecoveryShift | src/arenyxa/application/autopilot_validation.py:61-65 | for every sample count from 40 on, the recovery step raises it by at least 0.0401 |
| Experience.OneOutcomeMoves | src/arenyxa/application/autopilot.py:286-310 | while nothing is pruned, one outcome moves only the prior of its own key and site, by less than 1 / (n + 5) before rounding |
| Experience.RecordMoves | src/arenyxa/application/autopilot.py:273-310 | pruned or not, recording one outcome moves a prior by at most 1 / (n + 4), and only that of the new or of the forgotten row |
| Experience.ExperienceStore.RecordStrategy | src/arenyxa/application/autopilot.py:200-238 | an allowed engine's outcome is stored, a failing database rolls back; the table holds exactly the last rows up to its limit |
| Experience.ExperienceStore.RecordSelector | src/arenyxa/application/autopilot.py:240-270 | the same for selector outcomes with a valid site and key |
| Experience.ExperienceStore.StrategyPriors | src/arenyxa/application/autopilot.py:286-311 | every sampled engine with its rounded prior, in 0..1, and its number of samples; nothing for an invalid site or a failing database |
| SelectorRanking.HistoryBounded | src/arenyxa/application/autopilot.py:461-463 | history moves a score towards the prior, never past it, by at most min(0.18, 0.03 n) |
| SelectorRanking.HistoryCounts | src/arenyxa/application/autopilot.py:461-463 | the score goes exactly min(0.18, 0.03 n) of the way from the heuristic to the prior, and nowhere without a prior |
| SelectorRanking.SortedOrder | src/arenyxa/application/autopilot.py:467 | sorting loses and adds nothing and leaves the candidates in order |
| SelectorRanking.SortedStable | src/arenyxa/application/autopilot.py:467 | candidates that tie keep the order they had |
| SelectorRanking.RankingOrder | src/arenyxa/application/autopilot.py:451-467 | whatever the history, and whatever part of it can be read, the ranking is a permutation in order of score, then samples, then selector, and no candidate precedes one whose heuristic is more than 0.3601 better |
| SelectorRanking.Rank | src/arenyxa/application/autopilot.py:451-467 | the loop and the sort compute that ranking, for whichever candidates the database fails |
| SelectorRanking.UnreadHistory | src/arenyxa/application/autopilot.py:313-333 | a candidate whose history cannot be read keeps its rounded heuristic |
| AutopilotValidation.ThresholdsMet | src/arenyxa/application/autopilot_validation.py:56-66 | for every sample count from 40 on and with rounding to four decimals, contamination stays within 0.1601 and recovery is at least 0.04 |
| AutopilotValidation.AutopilotProductionValidator.BoundedPriors | src/arenyxa/application/autopilot_validation.py:88-97 | the bounded-priors case passes for every sample count |
| AutopilotValidation.AutopilotProductionValidator.Run | src/arenyxa/application/autopilot_validation.py:50-76 | the three experiment cases pass, and the report is stable exactly if the other cases pass |

## Left out

- The type list of a union node: it is determined by the variants, so schemas do not store it.
- Records, paths, parameters and GraphQL in `api_map.py`: flat bookkeeping around the schema of an endpoint.
- JSON numbers, strings and duplicate keys are as decoded; dictionary keys are strings.
- AsyncRunner.AsyncRun.Execute: observed for a given number of turns of its main loop, because the loop only ends if the limiters let requests through.
- The order inside the event loop: an await that suspends the scheduler lets every task in flight take its first step.
- The waiting list of the shared request gate, retries, result batches and progress persistence of the scheduler.
- SelectorStore.AdaptiveSelectorStore.constructor: rows are loaded with all their fields; what `SelectorVersion` raises for a row that lacks one, and `_persist`, are not modelled. Nor is a list or an object as an id, which no lease can pin, and two ids that are not strings are the same only if they are shown alike.
- Upgrades.UpgradeTransaction.Backup: a database copy has the bytes of the database; what SQLite's online backup may lay out differently is not modelled, nor are links, paths outside the data root and unsafe paths in a manifest.
- Upgrades.UpgradeTransaction.Execute: the action is a function of the data and the backup root that may raise; a crash inside it, and exceptions that are not `Exception`, are not modelled.
- `preflight`, `apply_json_migration`, release gates and the compatibility matrix: single checks without state.
- The manifest and the journal on disk are as this code writes them; their lengths are parameters, at least a byte for each character of a path they name. Times, and details of events other than paths, are not modelled.
- Temporary files that an atomic write leaves behind when their removal fails as well.
- Digests are injective: a digest value stands for the content it was taken of.
- Migrations.MigrationRegistry.Migrate: steps are functions that return an object or not; a step that raises is not modelled.
- Page handling of `PlaywrightBrowserWorker.fetch` (routing, events, metrics, snapshots), `_ensure_runtime` and the browser process.
- Browsers.BrowserPool.Fetch: the wait for the result and its timeout; a cancelled request is one its worker skips.
- Browsers.BrowserPool.Close: waiting on a full queue is observed for a given number of turns.
- Joining the threads of the pool at the end of `close`.
- `AntiBotIntelligenceEngine.assess` and `FailureClassifier.classify`: each branch is settled by reading it.
- Host names reach the governor stripped and case-folded; waits are real numbers; a requested delay is never not-a-number.
- VerificationTickets.HumanVerificationCoordinator.Issue: new ids are assumed never to repeat; the target is not hashed.
- AutopilotValidation.AutopilotProductionValidator.Run: the latency, quarantine and export cases are inputs, and the experiment's own writes do not fail.
- PriorFormula.PoisonShift: priors are real numbers; rounding to four decimals is to the nearest, ties upwards, where the code rounds the nearest float with ties to even.
- Latency, memory and feature columns of the outcome tables, their export, and the quarantine of a corrupt store.
- SelectorRanking.Rank: the candidate key of a selector is a parameter, and evidence strings are not modelled.
- `scripts/`, the command runtime, user interface, Repair Center handoff, settings clamping, lifecycle and provenance code: flat case analysis or file operations outside this model.
