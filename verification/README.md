# Network digital twin: a verified model

The service keeps a property graph of a network in one physical Neo4j graph that is divided into
logical databases. Connectors deliver resources, which a YAML ontology normalizes and turns into
nodes and relationships; `default` is filled by full syncs and kept current by events from Kafka or
from an in-memory channel; snapshots of `default` are archived and loaded back into logical
databases of their own.

The project models four parts of it and proves what they are for.

1. **The store and synchronisation** (`GraphModel`, `GraphStore`, `Normalizer`, `Assembler`, `Replay`,
   `SyncEvents`, `SyncService`). The store is a map from (database, URI) to labels and properties plus
   a multiplicity for each (database, type, from, to). Every Cypher statement is given its effect on
   that value, and may fail: whether the n-th statement works is fixed beforehand and known to nobody,
   and the statements are logged, so that each operation is said to fail exactly when a statement of
   its own did. Grouped writes come to the same graph in every group order. A full sync
   leaves exactly what was assembled. At-least-once delivery of events leaves exactly what one pass over
   the log leaves, for every redelivery schedule, as long as redelivery handles completely, in the end,
   what a failing handler has done in part; it is stated exactly when an event that stays undone is
   missed.
2. **Snapshots** (`SnapshotModel`, `Lru`, `Paging`, `SnapshotManager`, `SnapshotRuns`, `LocalDiff`,
   `LockProtocol`, `SyncedSnapshots`). Loaded snapshots are an LRU cache over archives. Exports, loads,
   restores and full syncs may fail half-way. For every run it is stated exactly when the cache is
   coherent, when a restore brings back what was exported, how long a snapshot stays loaded, when an export is
   complete, and when a difference is a patch; the graph lock makes every export a view of one
   moment. A synchronised `default` is one an export can carry, and restored it can be synchronised on.
3. **Schema inheritance** (`Schema`, `Inheritance`, `SliceAppend`). Cycle detection, topological
   order and in-order merging give every entity type its recursive meaning, its rules included if and
   only if no append overwrites the rules of another type in a shared backing array, which no rules
   and no growth of arrays can bring about if and only if no type that extends another is extended by
   two.
4. **Small machines** (`EventBus`, `CircuitBreaker`, `Text`, `IsisParser`). The fallback publisher
   with its bounded channel and the circuit breaker over every run, and the IS-IS listing parser with
   its print/parse round trip.

`Common`, `Strings`, `Sorting` hold what several parts share. Classes (`Neo4jClient`, `SyncService`,
`Session`, `SnapshotManager`, `Registry`, `CycleDetector`, `TopoSorter`, `CircuitBreaker`,
`ChannelEventBus`, `Peer`) have the fields the source updates; their methods are proved against
functions of the old state, and the lemmas are about those functions. Code that runs concurrently
(the lock, the fallback publisher) is a transition system; a run is a sequence of its steps.

## What does not hold, and when it does

Some promises of the code or its comments hold only under a condition. The code is modelled as it is;
the lemma named gives the condition or an input that fails.

- A message is marked although its handler has failed, so what is missing of it is made up for only if
  it is delivered again. A handler that fails has done a part of its event
  (`SyncService.SyncService.IncrementalSync`, `SyncEvents.StoppedIsPart`). The graph is that of one pass
  whenever redelivery has handled the whole log completely behind the failures
  (`SyncService.ConsumeAtLeastOnce`, `Replay.FailuresHeal`), in particular when the last session has no
  failure and starts no later than the first event not handled completely (`Replay.CleanLastPass`). With
  one message that is never handled completely the graph is that of one pass if and only if the later
  messages hide, at every node and relationship, what is missing (`SyncService.LostMessageExactly`).
  Whole logs that lose an event: `SyncService.LostDeletion`, `Replay.LostUpdate`. A redelivery that
  fails half-way can even bring an old value back (`Replay.StaleRedelivery`).
- Relationships are exported in pages ordered by source URI only. The export captures them for every
  order the database may choose within one source, from page to page, if and only if no page ends
  between a relationship that is exported and a different one of its source
  (`SnapshotManager.CleanExportExactly`, on lists of rows `Paging.RowExact` and `Paging.PagesExact`).
  501 to 1000 relationships of different types between two nodes fail
  (`SnapshotManager.FanNotCaptured`).
- An export creates its file anew before it writes to it. When it fails, the file of that name is as it
  was, cannot be read, or holds the new export with relationships cut off
  (`SnapshotManager.SnapshotManager.CreateSnapshot`), which has the contents of the whole if and only if
  those lack an end (`SnapshotModel.CutExactly`). So a failing export under an existing name can destroy
  the only copy: a snapshot that is not loaded cannot be restored any more (`SnapshotRuns.SnapshotLost`),
  or is restored without these relationships (a whole run in `SnapshotRuns.TruncatedRestore`). A loaded
  database still equals its archive if and only if the file kept its contents
  (`SnapshotRuns.FailedCreateExactly`).
- A load is one statement per label group and relation type, and may fail between two. The database
  then counts as loaded. It equals its archive if and only if nothing was stored or the missing
  statements would have added nothing (`SnapshotRuns.FailedLoadExactly`); otherwise later restores
  succeed with the stored part (`SnapshotRuns.RestoreAfterFailedLoad`, a whole run in
  `SnapshotRuns.PartialRestore`).
- Exporting under a name whose database is loaded does not refresh that database. It equals its new
  archive if and only if it held what `default` held (`SnapshotRuns.CreatedExactly`). In every run a
  restore brings an earlier `default` back if and only if the name is loaded with its contents, or is
  not loaded and its archive has them (`SnapshotRuns.RestoreBringsBack`); the archive has those of an
  export that no other export under the name, failing or not, has written over
  (`SnapshotRuns.ExportComesBack`). For a name that stays loaded it does so if and only if the database
  held these contents at the export (`SnapshotRuns.OverwriteExact`, a whole run that fails in
  `SnapshotRuns.StaleRestore`).
- So snapshot databases equal their archives at all times of a run if and only if they do right after
  each failing load and each export, failing or not (`SnapshotRuns.RunCoherent`).
- A restore that fails after `default` was cleared leaves in it the nodes with some label lists and, once
  these are all there, the relationships of some types; that is the snapshot if and only if nothing was
  left to do (`SnapshotRuns.StoppedRestoreExactly`). The snapshots are as after a load, failing or not
  (`SnapshotRuns.FailedRestoreSteps`). After a full sync that fails `default` is one that events can be
  applied to and an export can carry (`SyncService.StoppedSyncReady`, `SyncedSnapshots.FullSyncIsStep`).
- Diff loads snapshots without the lock. Over runs of loads in which no clear fails a loaded snapshot
  stays if and only if fewer than `maxActive` different others that have nodes are loaded
  (`SnapshotRuns.StaysExactly`), and a restore with such loads between its load and its clone gives
  the archive if and only if they are fewer, or the archive has no nodes itself, and an empty `default`
  otherwise (`SnapshotRuns.EvictedRestore`). Fewer are harmless also when clears fail
  (`SnapshotRuns.SurvivesLoads`).
- A snapshot named `default` is not rejected; restoring it empties `default`
  (`SnapshotRuns.RestoringDefaultEmptiesIt`). Everywhere else snapshot names differ from it.
- The field-mapping loop rewrites a map while ranging over another one. It is simultaneous renaming,
  for all properties and iteration orders, if and only if no target is a source and no two sources
  share a target (`Normalizer.SimultaneousExactly`).
- `append(parent.Normalize, …)` can make types share one backing array. After all merges every type
  has its rules if and only if none of the appends changed an element that the slice of another type
  covered (`SliceAppend.AllReadExactly`, `Inheritance.Registry.ResolveInheritance`). From the inheritance
  alone: for all rules and all capacities that appends may reserve this is certain if and only if no type
  that extends another is extended by two (`SliceAppend.AlwaysReadsExactly`, `Inheritance.SafeExactly`),
  which holds for the ontology of the repository, where nothing that is extended extends anything. That
  two children of one parent agree where they overlap (`SliceAppend.SiblingsExact`) is not enough: a type
  that extends one of them later can overwrite the other, also when all slices are as decoding leaves
  them (`SliceAppend.CousinDecoded`).
- Idempotence of events needs the orphan filter of the assembler: MERGE of a relationship whose target
  comes later would be skipped at first and created on redelivery (`Replay.OrphansWouldBreakReplay`).
- The key of a relationship in LocalDiff joins its parts with `|`, and only one relationship per key is
  looked at. The difference is a patch for relationships if and only if under every key both archives
  have the same ones, or only one archive has any, and just one (`LocalDiff.RelsPatchExactly`; with
  parallel ones counted, `LocalDiff.RelsPatchCounted`). Archives that differ with an empty difference:
  `LocalDiff.BarsCollide`, `LocalDiff.ParallelUnseen`.
- LocalDiff reports nothing if and only if the archives have the same URIs and keys, the last entry
  under each with equal properties (`LocalDiff.NothingReported`); labels can change freely
  (`LocalDiff.LabelsUnseen`).
- The recovery loop of the fallback publisher lives in the context of the request that failed. The
  primary can come back if and only if some loop is running or some call is about to start one
  (`EventBus.RecoversIff`); one short request can turn it off for good
  (`EventBus.OneRequestTurnsItOff`).
- The circuit breaker counts failures since it was last closed, not consecutive ones as its comment
  says (`CircuitBreaker.CountsSinceClosed`, `CircuitBreaker.NotConsecutive`). If the requests admitted
  while half-open never report, it refuses everything from then on
  (`CircuitBreaker.NoReportNoRecovery`); the first report ends that
  (`CircuitBreaker.FirstReportRecovers`).

## Model

| member | source | states |
|---|---|---|
| `GraphModel.WriteAllAt` | internal/graph/neo4j.go:255-280 | what a list of node rows makes of one node: the rows of its URI in order, nothing else |
| `GraphModel.OneMoreGroup` | internal/graph/neo4j.go:255-280 | statements for different label groups touch different URIs, so one more group can be appended to any set of finished groups |
| `GraphModel.AnyGroupOrder` | internal/graph/neo4j.go:219-225 | one statement per label group, in any order of the groups, leaves the graph of writing the rows one at a time in list order |
| `GraphModel.TouchAllAt` | internal/graph/neo4j.go:296-302 | the multiplicity of a relationship after CREATE, MERGE or DELETE of a list: by how often it is named and whether both ends exist |
| `GraphModel.AnyTypeOrder` | internal/graph/neo4j.go:238-244 | the same order independence for relationship statements by type |
| `GraphModel.WriteAllWf` | internal/graph/neo4j.go:313-356 | node writes keep `_db` and `uri` of every node equal to its key, and no relationship dangling |
| `GraphModel.TouchAllWf` | internal/graph/neo4j.go:283-303 | relationship writes create no dangling relationship |
| `GraphStore.Neo4jClient.ClearDB` | internal/graph/neo4j.go:155-164 | removes exactly one logical database with its relationships, so that it has no data afterwards, or on failure nothing; other databases unchanged |
| `GraphStore.Neo4jClient.HasDB` | internal/graph/neo4j.go:192-211 | true exactly when the database has a node |
| `GraphStore.Neo4jClient.ListDBs` | internal/graph/neo4j.go:167-188 | lists exactly the databases with data, each once |
| `GraphStore.Neo4jClient.QueryNodes` | internal/graph/neo4j.go:488-491 | lists every node of the database once |
| `GraphStore.Neo4jClient.QueryRels` | internal/graph/neo4j.go:496-499 | lists every relationship of the database as often as it occurs |
| `GraphStore.Neo4jClient.GroupNodesByLabels` | internal/graph/neo4j.go:219-225 | each group is the sublist of the nodes with that most specific label, in order; no other groups |
| `GraphStore.Neo4jClient.GroupRelsByType` | internal/graph/neo4j.go:238-244 | each group is the sublist of the relationships of that type |
| `GraphStore.Neo4jClient.WriteNodeGroups` | internal/graph/neo4j.go:255-280 | grouped node statements, in whatever order, equal one row at a time; after a failure exactly some groups are written; other databases untouched |
| `GraphStore.Neo4jClient.TouchRelGroups` | internal/graph/neo4j.go:283-303 | the same for relationship statements; after a failure exactly the relationships of some types have been processed |
| `GraphStore.Neo4jClient.BulkCreate` | internal/graph/neo4j.go:250-307 | on success equals processing nodes and relationships one element at a time; after a failure exactly some label groups are stored and, only if all are, some relation types; other databases unchanged |
| `GraphStore.Neo4jClient.Upsert` | internal/graph/neo4j.go:313-383 | on success every URI that is listed has a node with, key by key, the value of the last listed element that has the key (null removes it) and its old value elsewhere, new nodes with the listed labels; named relationships whose ends exist are there, once; everything else is unchanged; a failure leaves exactly some label groups and, only once these are all there, some relation types |
| `GraphStore.UpsertMerges` | internal/graph/neo4j.go:313-383 | the same as a statement about the specification of MERGE with `SET +=`, for all elements and graphs |
| `GraphStore.Neo4jClient.Load` | internal/graph/neo4j.go:250-307 | first every label group, then every relation type; it fails exactly when a statement does, and stops there |
| `GraphStore.Neo4jClient.DeleteByURIs` | internal/graph/neo4j.go:388-401 | afterwards none of the URIs has a node in this database, and every other node is as before; on failure nothing changes |
| `GraphStore.Neo4jClient.DeleteRelations` | internal/graph/neo4j.go:406-434 | removes exactly the named relationships and no node; after a failure exactly those of some types are gone |
| `GraphStore.Neo4jClient.GroupCloneNodes` | internal/graph/neo4j.go:438-465 | groups by the full label list; nodes without labels are dropped |
| `GraphStore.JoinInjective` | internal/graph/neo4j.go:460-462 | the grouping key tells label lists apart when no label contains its separator |
| `GraphStore.Neo4jClient.CloneDB` | internal/graph/neo4j.go:486-569 | the target becomes a copy of every labelled node and typed relationship of the source database; after a failure it holds exactly the nodes with some label lists and, only once these are all there, the relationships of some types; everything else is unchanged and the graph well formed either way |
| `GraphStore.ClonedNodes` | internal/graph/neo4j.go:508-541 | writing the listed nodes, for any listing, is the copy of the nodes |
| `GraphStore.ClonedEdges` | internal/graph/neo4j.go:543-564 | creating the listed relationships, for any listing, is the copy of the relationships with their multiplicities |
| `GraphStore.CopiedWf` | internal/graph/neo4j.go:518-527 | a copy keeps every node identified by its own properties |
| `GraphStore.PartlyCopiedWf` | internal/graph/neo4j.go:518-564 | so does a clone that stopped half-way, and it leaves no relationship dangling |
| `GraphStore.LoadedWf` | internal/graph/neo4j.go:250-303 | a load keeps the graph well formed |
| `GraphStore.DetachedWf` | internal/graph/neo4j.go:385-393 | DETACH DELETE leaves no dangling relationship |
| `Normalizer.ApplyFieldMapping` | internal/normalizer/normalizer.go:50-56 | the in-place loop is renaming in some order, and for clean mappings simultaneous renaming |
| `Normalizer.CleanIsSimultaneous` | internal/normalizer/normalizer.go:50-56 | for a clean mapping every iteration order gives simultaneous renaming, the source winning |
| `Normalizer.SimultaneousExactly` | internal/normalizer/normalizer.go:50-56 | the loop is simultaneous renaming for all properties and orders if and only if the mapping is clean |
| `Normalizer.Normalize` | internal/normalizer/normalizer.go:37-88 | six steps: mapping in some order, replacement, defaults, validation, URI; fails exactly where the source does; for clean mappings the result does not depend on the order and is, key by key, the moved value with the rules applied, or the default |
| `Normalizer.NormalizedComesTo` | internal/normalizer/normalizer.go:37-88 | what a resource comes to, key by key: the value of the source that moves there or its own, through the rules of that field in order if it is a text, or else the default; nothing exactly when something is violated or there is no URI |
| `Normalizer.ReplaceAllPieces` | internal/normalizer/normalizer.go:58-65 | replacing a pattern cuts the text at its leftmost occurrences, which do not overlap, and joins the pieces with the replacement |
| `Normalizer.ReplaceNothing` | internal/normalizer/normalizer.go:58-65 | an empty pattern stands around every character |
| `Normalizer.FillDefaults` | internal/schema/validator.go:66-79 | what is there stays, what is not has its default if it has one that is not null, and no other key appears |
| `Normalizer.Validate` | internal/schema/validator.go:8-134 | complains of exactly the required fields that are missing or empty, values of a wrong type, values that are no option, and stable keys that are empty; valid exactly without complaints |
| `Normalizer.UriOfTemplate` | pkg/utils/uri.go:12-29 | for templates without other braces and values without opening ones the URI is the template with the values of all stable keys in all their places |
| `Normalizer.NoUriExactly` | pkg/utils/uri.go:12-29 | there is no URI exactly when a stable key is absent, null or empty |
| `Normalizer.UriKeepsPrefix` | pkg/utils/uri.go:12-29 | substituting stable keys keeps the fixed beginning of the template |
| `Normalizer.UriDeterminesKind` | internal/normalizer/normalizer.go:77-87 | kinds whose templates begin differently never share a URI |
| `Assembler.Assemble` | internal/assembler/assembler.go:34-136 | fails exactly on an unknown kind; nodes one to one and in order, each with the labels of its kind and, key by key, the properties that are no relation fields; every relationship is kept or an orphan, by whether the target is in the batch, together as often as the lists in relation fields name it; one warning per orphan |
| `Assembler.DerivedNamed` | internal/assembler/assembler.go:65-115 | a relationship is derived exactly as often as there are positions holding its target in the lists, of strings or of anything, of fields of its type whose relation type is known and may start at the resource's kind |
| `Assembler.ConvertNodes` | internal/assembler/assembler.go:41-63 | one node per resource with exactly its non-relation properties, and the set of URIs |
| `Assembler.DeriveRelations` | internal/assembler/assembler.go:65-115 | the relationships of valid relation fields, with multiplicity, whatever the field order |
| `Assembler.DropOrphans` | internal/assembler/assembler.go:117-130 | splits the relationships by their target, one warning per orphan |
| `Assembler.KeptExactly` | internal/assembler/assembler.go:117-130 | a relationship is kept as often as derived if and only if its target is a resource of the batch |
| `Replay.PerformThen` | internal/graph/neo4j.go:344-351 | effects on one node compose |
| `Replay.EffectAgain` | internal/events/kafka_consumer.go:86-88 | an effect that comes again later, whole, need not have come before, whole or in part |
| `Replay.ApplyAtNode` | internal/service/sync_service.go:210-292 | every event acts on one node as an effect that does not depend on the graph |
| `Replay.ApplyAtEdge` | internal/service/sync_service.go:210-292 | every event acts on one relationship as an effect that does not depend on the graph |
| `Replay.PartsAgain` | internal/events/kafka_consumer.go:86-119 | for all event sequences A and B and whatever parts P of the events of A: running P, B, A equals running B, A |
| `Replay.LaterWins` | internal/events/kafka_consumer.go:86-88 | with no failures, for all event sequences A and B, running A, B, A equals running B, A |
| `Replay.FinishAfterFailures` | internal/events/kafka_consumer.go:89-119 | after any sessions, in which any handlers have done their events in part, handling the rest of the log completely from any point up to which it has been handled completely gives the graph of one pass |
| `Replay.FailuresHeal` | internal/events/kafka_consumer.go:105-119 | once redelivery has handled the whole log completely behind the failures, the graph is that of one pass |
| `Replay.CleanLastPass` | internal/events/kafka_consumer.go:105-119 | which it has when the last session has no failure and starts no later than the first event not handled completely |
| `Replay.MendedExactly` | internal/events/kafka_consumer.go:105-113 | after a part of an event the later events lead to the same graph as after the whole if and only if they hide what is missing at every node and relationship |
| `Replay.LostExactly` | internal/events/kafka_consumer.go:105-113 | in any schedule: when one event is never handled completely and all others are, the graph is that of one pass if and only if the later events hide what is missing |
| `Replay.LostUpdate` | internal/events/kafka_consumer.go:105-113 | a log whose only event fails, is marked, and is lost |
| `Replay.StaleRedelivery` | internal/events/kafka_consumer.go:105-113 | two updates handled completely and then, of both, only the first once more: its old value is back |
| `Replay.FinishFromAnywhere` | internal/events/kafka_consumer.go:89-119 | without failures, after any schedule of sessions, finishing the log from the last stop gives the graph of one pass |
| `Replay.RedeliveryIsHarmless` | internal/events/kafka_consumer.go:86-119 | without failures every redelivery schedule that reaches the end leaves the graph of one pass over the log |
| `Replay.SuffixChangesNothing` | internal/events/kafka_consumer.go:111-113 | replaying any suffix of the log changes nothing |
| `Replay.OrphansWouldBreakReplay` | internal/assembler/assembler.go:117-130 | without the orphan filter redelivery would change the graph: an example |
| `SyncEvents.MergeIsLink` | internal/graph/neo4j.go:372-375 | MERGE of a list of relationships adds the missing ones whose ends exist, once |
| `SyncEvents.DeleteIsUnlink` | internal/graph/neo4j.go:423-426 | DELETE of a list removes the named relationships altogether |
| `SyncEvents.UpsertIsLoad` | internal/service/sync_service.go:233-244 | upserting an assembled batch is the action the update event means |
| `SyncEvents.StoppedIsPart` | internal/service/sync_service.go:233-244 | an upsert that stops between two statements is a part of that action |
| `SyncEvents.BatchSelfContained` | internal/assembler/assembler.go:117-136 | both ends of every kept relationship are nodes of the same batch, and labels follow from the URI |
| `SyncEvents.BatchMergeable` | internal/graph/neo4j.go:317-356 | batches of such events meet what MERGE needs on every graph reached |
| `SyncEvents.MeaningDone` | internal/service/sync_service.go:210-292 | what an event means, element by element: an update gives every element that normalizes its node, with the labels of the kind and each plain property of the last element of its URI that has it, and the relationships its lists name whose target is an element; a deletion removes exactly the nodes of its URIs and what hangs on them, a relation deletion exactly the relationships named; nothing else changes |
| `SyncEvents.MeaningSelfContained` | internal/service/sync_service.go:210-292 | every admissible event is an action the replay theorem covers |
| `SyncEvents.EventsReplay` | internal/service/sync_service.go:197-293 | redelivery of a log of sync events is harmless, stated for the events themselves |
| `SyncService.FullLoad` | internal/service/sync_service.go:151-164 | loading an assembled batch into an empty database makes it hold exactly that batch, with the reported counts |
| `SyncService.TotalCreated` | internal/service/sync_service.go:173-176 | creating relationships whose ends exist raises the total by exactly their number |
| `SyncService.SyncService.FullSync` | internal/service/sync_service.go:102-192 | on success default holds exactly what was pulled: a node for every resource of every successful pull that normalizes, with its labels and plain properties, no other node, and every relationship to a pulled resource as often as lists name it; the counts are those of the resources and of what is stored, kept plus orphans equal derived, for any prior contents; it fails exactly when a statement does, and then nothing has changed, or default holds some label groups of the batch and, once these are all there, some types of its relationships; if anything changed, events can be applied to it; other databases unchanged |
| `SyncService.HoldsWhatWasPulled` | internal/service/sync_service.go:124-164 | a database that holds the assembled batch holds what was pulled, node by node and relationship by relationship |
| `SyncService.CollectedLists` | internal/service/sync_service.go:124-152 | the normalized batch has every pulled resource that normalizes, exactly once; a failed pull loses only itself |
| `SyncService.FullSyncReady` | internal/service/sync_service.go:102-192 | what a full sync leaves carries the labels of the ontology and only nodes and relationships of it: the condition of the event theorems |
| `SyncService.StoppedSyncReady` | internal/service/sync_service.go:151-164 | so does a full sync that fails after the clear |
| `SyncService.SyncService.IncrementalSync` | internal/service/sync_service.go:197-293 | unless a statement fails, default is what the event asks for, element by element; if one fails, what a part of the event means; it fails exactly when a statement does; unknown actions are errors and change nothing; other databases unchanged; default stays one events can be applied to |
| `SyncService.MessageDone` | internal/events/kafka_consumer.go:93-103 | a malformed message changes nothing, a delivered one asks for what its event asks for |
| `SyncService.ConsumeClaim` | internal/events/kafka_consumer.go:85-119 | every message of the claim is marked in order, malformed or failing ones too; the graph is the run over what was done, a part of each message, and without failing statements over the messages themselves |
| `SyncService.MessagesSelfContained` | internal/events/kafka_consumer.go:93-103 | a log with malformed messages is still covered by the replay theorem |
| `SyncService.ConsumeAtLeastOnce` | internal/events/kafka_consumer.go:86-119 | any schedule of sessions that reaches the end, with any failing handlers, does a part of each message it delivers; the graph is that of handling every message once, in order, if no statement fails, or if redelivery has handled the whole log completely behind the failures |
| `SyncService.DeliveryHeals` | internal/events/kafka_consumer.go:105-119 | the same for messages as a statement about schedules, on whatever graph |
| `SyncService.LostMessageExactly` | internal/events/kafka_consumer.go:105-113 | with one message that is never handled completely the graph is that of one pass if and only if the later messages hide, at every node and relationship, what is missing |
| `SyncService.LostDeletion` | internal/events/kafka_consumer.go:105-113 | a whole log that loses its only message, on every graph with the node it deletes |
| `SyncService.ScheduleIsHarmless` | internal/service/sync_service.go:298-317 | redelivery of Kafka messages through the handler is harmless, on whatever graph |
| `Paging.SamePrefix` | internal/snapshot/manager.go:208-212 | up to a page end that is clean for a row, all listings have that row equally often |
| `Paging.PagesPrefix` | internal/snapshot/manager.go:207-229 | pages taken from different listings have such a row as often as one listing up to there |
| `Paging.RowExact` | internal/snapshot/manager.go:231-261 | however rows of equal key are ordered from page to page, reading all pages returns a row exactly as often as it is there if and only if no page ends between it and a different row of its key |
| `Paging.PagesExact` | internal/snapshot/manager.go:233-261 | reading all pages is complete for every choice of listings if and only if no page ends between two different rows of one key |
| `Paging.UniqueKeysClean` | internal/snapshot/manager.go:208-212 | rows with distinct keys, such as nodes by URI, are always read completely |
| `Paging.OnePageClean` | internal/snapshot/manager.go:205 | up to 500 rows are always read completely |
| `Sorting.Sort` | internal/snapshot/manager.go:817-824 | the sorted list is a permutation in order |
| `Lru.VictimsAreFront` | internal/snapshot/manager.go:817-829 | a position of the sorted list is cleared if and only if at least maxActive snapshots are newer |
| `Lru.FrontIsVictims` | internal/snapshot/manager.go:827-829 | the cleared front is exactly the set of snapshots with maxActive newer ones |
| `Lru.RecentIsSafe` | internal/snapshot/manager.go:797-839 | a snapshot with fewer than maxActive newer ones is never cleared |
| `Lru.LeftAfterCleanup` | internal/snapshot/manager.go:826-838 | at most maxActive snapshots plus the failed clears remain |
| `Lru.KeptBound` | internal/snapshot/manager.go:826-838 | clearing everything due leaves at most maxActive snapshots |
| `SnapshotModel.LoadedAgrees` | internal/snapshot/manager.go:514-523 | a loaded archive holds the archive's contents, in any database |
| `SnapshotModel.PortionExactly` | internal/graph/neo4j.go:250-307 | a load that stored some groups and types of an archive has its contents if and only if every node is there and every missing relationship lacks an end |
| `SnapshotModel.ExportRoundTrip` | internal/snapshot/manager.go:205-273 | loading an archive of an exportable database reproduces its nodes, labels, properties and relationships |
| `SnapshotModel.CopyAgrees` | internal/graph/neo4j.go:486-569 | a clone into an empty database holds what the original holds |
| `SnapshotModel.CutExactly` | internal/snapshot/exporter.go:47-98 | an archive without its last relationships has the contents of the whole if and only if these lack an end |
| `SnapshotManager.QueryNodePage` | internal/snapshot/manager.go:207-212 | a page is cut from some listing of all nodes ordered by URI |
| `SnapshotManager.QueryRelPage` | internal/snapshot/manager.go:234-239 | a page is cut from some listing of all relationships ordered by source |
| `SnapshotManager.AllNodePages` | internal/snapshot/manager.go:205-229 | the node pages capture every node with labels and a URI exactly once |
| `SnapshotManager.AllRelPages` | internal/snapshot/manager.go:231-261 | the relationship pages capture every complete relationship as often as it occurs when pages end cleanly |
| `SnapshotManager.CleanExportExactly` | internal/snapshot/manager.go:231-261 | every choice of listings for the pages makes the export capture the relationships of default if and only if no page ends between one that is exported and a different one of its source |
| `SnapshotManager.FanNotCaptured` | internal/snapshot/manager.go:231-261 | a graph with 501 to 1000 different relationships of one source, and listings for its two pages with which the export misses one |
| `SnapshotManager.SnapshotManager.ExportNodes` | internal/snapshot/manager.go:205-229 | the loop over node pages captures the nodes of default |
| `SnapshotManager.SnapshotManager.ExportRels` | internal/snapshot/manager.go:231-261 | the loop over relationship pages captures the relationships of default when pages end cleanly |
| `SnapshotManager.SnapshotManager.CreateSnapshot` | internal/snapshot/manager.go:167-292 | stores the export of default under the name, deletes the databases of the expired snapshots but for those about which a statement failed, changes nothing else; fails exactly when a page cannot be read or the file not be written; a failed export leaves everything but the archive of that name, which is as it was, cannot be read, or is the new export, all its nodes, with relationships cut off |
| `SnapshotManager.SnapshotManager.Cleanup` | internal/snapshot/manager.go:797-839 | the databases are listed, and if that works exactly the snapshots with maxActive newer ones are cleared, never default, but for those whose clear failed; access times go exactly with the cleared ones |
| `SnapshotManager.SnapshotManager.DeleteSnapshot` | internal/snapshot/manager.go:370-419 | removes the loaded database and leaves archives alone |
| `SnapshotManager.SnapshotManager.EnsureLoaded` | internal/snapshot/manager.go:500-527 | afterwards the snapshot was accessed now and is loaded; if it was not before, the clean-up was sent: unless listing failed, everything due is cleared but for clears that failed, and at most maxActive snapshots and those remain; it fails exactly when a statement of the load does or there is no archive, and then nothing changed or the database holds exactly the groups and types that were stored |
| `SnapshotManager.AllMadeRoom` | internal/snapshot/manager.go:525-526 | when no statement fails, everything due is cleared and at most maxActive snapshots are loaded |
| `SnapshotManager.SnapshotManager.Restore` | internal/snapshot/manager.go:455-496 | default becomes a copy of the snapshot's database and nothing else changes, for every name, after a load with its clean-up; fails exactly when a statement other than those of the clean-up does or there is no archive, and then it is a failing load, or the snapshot is loaded and default is unchanged or holds exactly the nodes with some label lists and, once these are all there, the relationships of some types |
| `SnapshotManager.SnapshotManager.LoadBoth` | internal/snapshot/manager.go:541-546 | the two loads of Diff, one after the other, each with its clean-up; on failure the first has failed, or the second after the first |
| `SnapshotManager.EnsuredValid` | internal/snapshot/manager.go:500-527 | loading and evicting keep the state valid |
| `SnapshotRuns.EnsuredHolds` | internal/snapshot/manager.go:500-527 | after EnsureLoaded the snapshot's database equals its archive; it is never the one evicted |
| `SnapshotRuns.StepKeeps` | internal/snapshot/manager.go:167-527 | every step keeps a snapshot equal to its archive, but for a failing load of it and an export under its name |
| `SnapshotRuns.FailedLoadExactly` | internal/snapshot/manager.go:500-527 | after a failing load the database equals its archive if and only if none of its nodes was stored or nothing that matters is missing |
| `SnapshotRuns.CreatedExactly` | internal/snapshot/manager.go:167-292 | after an export over a loaded database it equals its new archive if and only if it held what default held |
| `SnapshotRuns.FailedCreateExactly` | internal/snapshot/exporter.go:47-98 | after a failing export over a database that held its archive it still does if and only if the file can be read and has the contents it had |
| `SnapshotRuns.RunCoherent` | internal/snapshot/manager.go:167-527 | in every run, failing steps included, every snapshot database with data equals its archive at all times if and only if it does at the start and right after each failing load and each export, failing or not, of its name |
| `SnapshotRuns.RestoreGives` | internal/snapshot/manager.go:483-495 | whatever the snapshot databases were loaded from, a restore gives the database of the name if that is loaded, and its archive otherwise |
| `SnapshotRuns.RestoreGivesArchive` | internal/snapshot/manager.go:483-495 | in a coherent state a restore makes default equal the archive |
| `SnapshotRuns.RestoreBringsBack` | internal/snapshot/manager.go:455-496 | whatever happened since an earlier moment, a restore makes default equal what it was then if and only if the name is loaded with these contents, or is not loaded and its archive has them |
| `SnapshotRuns.ExportComesBack` | internal/snapshot/manager.go:455-496 | in every run an export that no export has written over comes back if and only if the name is not loaded at the restore or is loaded with its contents |
| `SnapshotRuns.CoherentRestore` | internal/snapshot/manager.go:455-496 | a snapshot that equals its archive at the restore brings an earlier default back if and only if the archive has its contents |
| `SnapshotRuns.OverwriteExact` | internal/snapshot/manager.go:510-512 | in every run, whatever is exported under the name in between, if the name stays loaded from the export to the restore, the restore brings the export back if and only if the loaded database already held it |
| `SnapshotRuns.StaleRestore` | internal/snapshot/manager.go:510-512 | a whole run of export and restore, from a coherent state, whose restore brings back older contents |
| `SnapshotRuns.SnapshotLost` | internal/snapshot/exporter.go:47-51 | in every run, after an export that failed with its file unreadable, a snapshot that is not loaded can be neither loaded nor restored until another export writes to the file |
| `SnapshotRuns.TruncatedRestore` | internal/snapshot/exporter.go:47-98 | from every state with relationships in default: a whole run of an export, another that fails with the file cut short, and a restore that succeeds without relationships |
| `SnapshotRuns.FailedRestoreSteps` | internal/snapshot/manager.go:455-496 | a failing restore is a failing load, or a load and a change of default alone, so the theorems about runs cover it |
| `SnapshotRuns.StoppedRestoreExactly` | internal/snapshot/manager.go:487-493 | a restore that stopped while cloning leaves in default the snapshot if and only if every label list and every relation type was done |
| `SnapshotRuns.RestoreAfterFailedLoad` | internal/snapshot/manager.go:455-527 | in every run a restore after a failing load succeeds with exactly the part that was stored |
| `SnapshotRuns.PartialRestore` | internal/snapshot/manager.go:455-527 | a whole run of failing load and restore, from a coherent state, whose restore misses a node |
| `SnapshotRuns.StaysLoaded` | internal/snapshot/manager.go:797-839 | loading fewer than maxActive other snapshots leaves a loaded one as it is |
| `SnapshotRuns.SurvivesLoads` | internal/snapshot/manager.go:525-545 | over any run of loads of fewer than maxActive others, clears failing or not, a loaded snapshot keeps its contents |
| `SnapshotRuns.StaysExactly` | internal/snapshot/manager.go:797-839 | over every run of loads in which no clear fails, a snapshot just accessed stays loaded if and only if fewer than maxActive different others that have nodes are loaded; an archive without nodes never counts as loaded |
| `SnapshotRuns.DiffHasBoth` | internal/snapshot/manager.go:541-546 | with maxActive at least 2, after the two loads of Diff both databases hold their archives |
| `SnapshotRuns.RestoredEmpty` | internal/snapshot/manager.go:487-493 | a restore leaves default empty if and only if the snapshot's database has no labelled node at the time of cloning |
| `SnapshotRuns.EvictedRestore` | internal/snapshot/manager.go:483-493 | a restore with unlocked loads between its load and its clone makes default equal the archive if and only if fewer than maxActive different snapshots with nodes were loaded or the archive has none, and default has data afterwards if and only if they were fewer and it has some, for every maxActive |
| `SnapshotRuns.RestoringDefaultEmptiesIt` | internal/snapshot/manager.go:483-493 | restoring the name `default` leaves default empty |
| `SyncedSnapshots.SyncedIsExportable` | internal/service/sync_service.go:102-292 | what full syncs and events leave in default an export can carry without loss, and CloneDB can group |
| `SyncedSnapshots.SyncIsStep` | internal/service/sync_service.go:197-293 | an event, handled completely or in part, is a step that leaves every snapshot alone, so the theorems about runs cover it |
| `SyncedSnapshots.FullSyncIsStep` | internal/service/sync_service.go:102-192 | so is a full sync, wherever it stops, and what it leaves can be synchronised on and exported |
| `SyncedSnapshots.SyncedRestore` | internal/snapshot/manager.go:455-496 | in every run the export of a synchronised default comes back if and only if the snapshot is loaded with it, or is not loaded and its archive has it; which it has if no other export, failing or not, wrote to it |
| `SyncedSnapshots.RestoredIsSynced` | internal/snapshot/manager.go:483-495 | and once it is back events can be applied to it again |
| `LocalDiff.CompareProps` | internal/snapshot/manager.go:843-872 | the three maps of added, removed and modified properties |
| `LocalDiff.FieldsArePatch` | internal/snapshot/manager.go:843-872 | applying the changes to the first map yields the keys of the second and its values, up to valuesEqual where nothing is reported |
| `LocalDiff.FieldsInvert` | internal/snapshot/manager.go:843-872 | exchanging the maps exchanges added and removed, old and new |
| `LocalDiff.Diff` | internal/snapshot/manager.go:697-792 | fails exactly when an archive is missing; otherwise lists added, removed and changed nodes and relationships, each once |
| `LocalDiff.ChangesTold` | internal/snapshot/manager.go:756-772 | a change is reported for a URI exactly when the last nodes of that URI in the two archives differ in a property, with all differences, both values, and the most specific label of the second |
| `LocalDiff.NodesPatch` | internal/snapshot/manager.go:714-731 | applying the difference to the nodes of the first archive yields the URIs of the second and its properties |
| `LocalDiff.RelsPatchExactly` | internal/snapshot/manager.go:733-754 | applying the difference yields the relationships of the second archive if and only if under every key both archives have the same, or one has none and the other one |
| `LocalDiff.RelsPatchCounted` | internal/snapshot/manager.go:733-754 | the same with parallel relationships counted |
| `LocalDiff.RelsPatch` | internal/snapshot/manager.go:733-754 | without the separator in types and sources, applying the difference to the relationships of the first archive yields those of the second |
| `LocalDiff.RelFieldsPatch` | internal/snapshot/manager.go:774-790 | relationships in both archives are patched to the second's properties |
| `LocalDiff.KeyInjective` | internal/snapshot/manager.go:733-736 | without the separator in types and sources the key identifies a relationship |
| `LocalDiff.BarsCollide` | internal/snapshot/manager.go:733-736 | archives with different relationships and an empty difference, because of the separator in a URI |
| `LocalDiff.ParallelUnseen` | internal/snapshot/manager.go:737-754 | one more relationship parallel to an existing one gives an empty difference, in every archive |
| `LocalDiff.DiffInverts` | internal/snapshot/manager.go:725-754 | exchanging the archives exchanges the added and removed lists |
| `LocalDiff.NodeChangesInvert` | internal/snapshot/manager.go:756-772 | and inverts the change of every node |
| `LocalDiff.RelChangesInvert` | internal/snapshot/manager.go:774-790 | and of every relationship |
| `LocalDiff.NothingReported` | internal/snapshot/manager.go:699-792 | the difference is empty if and only if the archives have the same URIs and relationship keys, with equal properties of the last entry under each |
| `LocalDiff.LabelsUnseen` | internal/snapshot/manager.go:758-772 | archives that differ only in labels, however, have an empty difference |
| `LockProtocol.MutualExclusion` | internal/snapshot/graphlock.go:10-32 | in every interleaving a process that writes under the lock is alone |
| `LockProtocol.RunAccounted` | internal/snapshot/graphlock.go:10-32 | the lock always counts the processes that are past it |
| `LockProtocol.NobodyStuck` | internal/snapshot/graphlock.go:10-32 | in every run a process that waits can have the lock, or another can give it back |
| `LockProtocol.ReadersProtect` | internal/snapshot/manager.go:175-176 | no step changes default while anyone reads under the lock |
| `LockProtocol.ReaderStep` | internal/snapshot/manager.go:205-273 | every page a reader reads comes from the version of default it started with |
| `LockProtocol.ExportIsOneMoment` | internal/snapshot/manager.go:167-273 | in every interleaving all pages of one export come from one version of default, and every archive is default as it stood at one moment |
| `Schema.DetectCycle` | internal/schema/registry.go:241-277 | terminates on every finite map and reports a cycle if and only if there is one |
| `Schema.CycleDetector.Dfs` | internal/schema/registry.go:246-262 | reports a name on a cycle, or finishes with everything above the node visited |
| `Schema.TopoSort` | internal/schema/registry.go:281-316 | every involved name exactly once, and parents before children if and only if the map is acyclic |
| `Schema.TopoSorter.Visit` | internal/schema/registry.go:293-303 | after a visit the node is in the result behind its ancestors |
| `Schema.ParentFirstAcyclic` | internal/schema/registry.go:279-280 | no order at all puts every parent first when there is a cycle |
| `Inheritance.MergedMeans` | internal/schema/registry.go:325-360 | merging a resolved parent into its child gives the child its recursive meaning |
| `Inheritance.MeansUnique` | internal/schema/registry.go:318-324 | the recursive meaning determines the type, so every parent-first order gives the same result |
| `Inheritance.Registry.MergeEntityType` | internal/schema/registry.go:325-360 | the child's own definitions win, its slice of rules becomes an append to the parent's with what that does to the shared array, nothing else changes |
| `Inheritance.Registry.ResolveInheritance` | internal/schema/registry.go:205-237 | succeeds if and only if the map is acyclic and every parent is known; then every type has its recursive meaning but for rules, and all have their rules from the root down if and only if no append overwrote an element another slice covered; they have them for certain when no slice has spare capacity at first and no type that extends another is extended by two |
| `Inheritance.SafeExactly` | internal/schema/registry.go:205-237 | all types end up with their rules, whatever the rules are and whatever capacities appends reserve, if and only if no type that extends another is extended by two |
| `Inheritance.Registry.MergeInOrder` | internal/schema/registry.go:223-236 | merging in any parent-first order resolves every type as far as the appends allow, or names an unknown parent |
| `Inheritance.Registry.MergeEach` | internal/schema/registry.go:223-236 | the merge loop: every type so far is merged with its resolved parent, and each append is a step of the run of memories |
| `Inheritance.Registry.GetLabels` | internal/schema/registry.go:158-184 | terminates for every ontology and returns the chain from the base to the kind |
| `Inheritance.LabelsAreChain` | internal/schema/registry.go:155-184 | for acyclic ontologies the labels are the ancestor chain, root first |
| `Inheritance.KindIsLastLabel` | internal/schema/registry.go:155-184 | the most specific label is the kind itself |
| `SliceAppend.AppendReads` | internal/schema/registry.go:347 | append reads as concatenation at the time it is made |
| `SliceAppend.SiblingsExact` | internal/schema/registry.go:347 | right after two appends to one parent both read as expected if and only if the second did not overwrite the first with something else |
| `SliceAppend.AllReadExactly` | internal/schema/registry.go:223-236 | after any run of parent-first appends all types read their rules if and only if no append changed an element another type's slice covers |
| `SliceAppend.CousinOverwritten` | internal/schema/registry.go:347 | an append to a child overwrites its sibling, although the siblings agreed |
| `SliceAppend.CousinDecoded` | internal/schema/registry.go:223-236 | a whole run of four merges, from slices without spare capacity and with the growth of Go's append, after which a type has the rule of its sibling's child |
| `SliceAppend.RootBranchesRead` | internal/schema/registry.go:223-236 | from slices without spare capacity, when only types that extend nothing are extended by several, every run of appends leaves every type with its rules |
| `SliceAppend.AlwaysReadsExactly` | internal/schema/registry.go:223-236 | for every parent-first list of merges: all rules and all growths of arrays lead to the right rules if and only if only types that extend nothing are extended by several |
| `EventBus.ChannelIsFifo` | internal/events/channel.go:30-55 | the channel never exceeds its buffer; consumed then queued is what it accepted, in order |
| `EventBus.ChannelEventBus.Publish` | internal/events/channel.go:30-37 | accepts at the end of the queue exactly when there is room |
| `EventBus.ChannelEventBus.Consume` | internal/events/channel.go:44-55 | hands on the queue from its front |
| `EventBus.RoomAccepts` | internal/events/channel.go:30-37 | an event that has come as far as the channel is accepted at its end when there is room and refused only when there is none |
| `EventBus.OffUsesChannel` | internal/events/fallback.go:43-61 | in every run a call begun while the primary is off goes to the channel, which takes it when there is room |
| `EventBus.FailureUsesChannel` | internal/events/fallback.go:43-61 | and so does a call for which the primary has failed |
| `EventBus.ExactlyOnce` | internal/events/fallback.go:43-61 | in every interleaving an event whose Publish returned nil is in exactly one sink once, unless a failing primary kept it as well |
| `EventBus.LastDownWatches` | internal/events/fallback.go:49-57 | while the primary is off, the call that turned it off last has a loop about to start or running, or its context has ended |
| `EventBus.OffForEver` | internal/events/fallback.go:64-90 | without a live or coming loop the primary stays off and receives nothing more |
| `EventBus.RecoversIff` | internal/events/fallback.go:64-90 | some continuation turns the primary on if and only if a loop is live or coming |
| `EventBus.OneRequestTurnsItOff` | internal/events/fallback.go:55-70 | one failing request that ends before the first tick turns the primary off for good |
| `CircuitBreaker.CircuitBreaker.Allow` | internal/api/middleware/circuitbreaker.go:43-65 | answers and changes state as the three-state machine; a refusal changes nothing and an admission leaves it closed or half-open; the count is untouched |
| `CircuitBreaker.CircuitBreaker.RecordSuccess` | internal/api/middleware/circuitbreaker.go:68-77 | never leaves it half-open, changes it only to closed with count zero, and keeps it closed exactly below the limit |
| `CircuitBreaker.CircuitBreaker.RecordFailure` | internal/api/middleware/circuitbreaker.go:80-93 | counts, remembers the time, and leaves it closed only if it was and is below the limit |
| `CircuitBreaker.ClosedBelowLimit` | internal/api/middleware/circuitbreaker.go:43-93 | in every run the breaker is closed if and only if it has counted fewer failures than its limit |
| `CircuitBreaker.CountsSinceClosed` | internal/api/middleware/circuitbreaker.go:68-93 | what is counted is every failure since it was last closed |
| `CircuitBreaker.OpensAtLimit` | internal/api/middleware/circuitbreaker.go:80-93 | it opens exactly at the failure that reaches the limit since it was last closed |
| `CircuitBreaker.NotConsecutive` | internal/api/middleware/circuitbreaker.go:95-96 | failures need not be consecutive: an example |
| `CircuitBreaker.OpenAdmitsAfterTimeout` | internal/api/middleware/circuitbreaker.go:50-56 | while open a request is admitted if and only if more than the timeout has passed since every failure |
| `CircuitBreaker.EpisodeAdmitsTwo` | internal/api/middleware/circuitbreaker.go:50-62 | a half-open episode admits the request that began it and at most one more |
| `CircuitBreaker.EpisodeAdmitsSecond` | internal/api/middleware/circuitbreaker.go:50-62 | and so many may be: right after the request that began it the next one is admitted, whenever it comes, and the one after that is not |
| `CircuitBreaker.NoReportNoRecovery` | internal/api/middleware/circuitbreaker.go:57-62 | without a report a half-open breaker that has let both through refuses every later request |
| `CircuitBreaker.FirstReportRecovers` | internal/api/middleware/circuitbreaker.go:43-93 | the first report ends it: after a success every request is admitted, after a failure those later than the timeout |
| `Text.TrimPadded` | internal/connector/controller/parser.go:199 | trimming removes exactly the blanks around a text |
| `Text.SplitJoin` | internal/connector/controller/parser.go:181 | splitting undoes joining of lines |
| `Text.ChunkOff` | internal/connector/controller/parser.go:245 | a run of three or more blanks ends a chunk, shorter runs do not |
| `IsisParser.Peer.SetField` | internal/connector/controller/parser.go:264-284 | sets the field the key stands for, case-insensitively, and no other; a status is Active exactly for up and active, a level one of three; unknown keys change nothing |
| `IsisParser.StatusWords` | internal/connector/controller/parser.go:286-294 | up and active, in any case, are Active, everything else Inactive |
| `IsisParser.LevelWords` | internal/connector/controller/parser.go:296-309 | L1 and L2 are themselves, both together or nothing are L1L2 |
| `IsisParser.Peer.ParseKeyValuePairs` | internal/connector/controller/parser.go:243-262 | the effect of all chunks of a line in order |
| `IsisParser.FindProcessId` | internal/connector/controller/parser.go:184-193 | the text in parentheses of the first line that names IS-IS |
| `IsisParser.ParseTabular` | internal/connector/controller/parser.go:180-235 | equals the parse function, with the block in progress as an object |
| `IsisParser.ParseIsisText` | internal/connector/controller/parser.go:131-168 | every vendor's text is parsed the same way; the empty text has no peers |
| `IsisParser.LineChunks` | internal/connector/controller/parser.go:243-249 | a printed line of any cells splits into exactly these cells |
| `IsisParser.CellSets` | internal/connector/controller/parser.go:247-259 | a printed cell sets exactly its field to its value |
| `IsisParser.TitlesSkipped` | internal/connector/controller/parser.go:201-204 | echoes of the command, titles and rules are skipped wherever they stand |
| `IsisParser.ListingParses` | internal/connector/controller/parser.go:180-235 | printing any listing of blocks of cells and parsing it yields the blocks that name a system, in order, each with the process id |
| `IsisParser.NeighbourRoundTrip` | internal/connector/controller/parser.go:170-235 | printing any list of neighbours and parsing the text yields the same list in order, field by field, up to the status and level maps, with the printed process id on every neighbour |

## Left out

- The Neo4j driver, sessions, Cypher text generation, BuildCypher and EnsureIndexes: only the effect of each statement on the graph is modelled.
- Properties of relationships: the statements of BulkCreate, Upsert and CloneDB do not send them, so stored relationships have none.
- Several nodes with one URI in one logical database: the store map cannot hold them, which is why BulkCreate and FullSync require new, distinct URIs (CREATE does not look for existing nodes).
- GraphStore.Neo4jClient.Upsert: requires that MERGE by most specific label and URI finds the node of that URI, i.e. that rows and stored nodes of one URI agree on that label; SyncEvents.BatchMergeable derives it for events from conditions on the ontology (URI templates with different fixed beginnings, no `uri` property) that can be checked at load time.
- GraphStore.Neo4jClient.CloneDB: requires labels without `:`; the source groups nodes by labels joined with that character.
- SyncService.LostMessageExactly: is about one message that is never handled completely and none of whose deliveries does more than its last one; for several such messages, applied to one after the other, it gives a condition that suffices.
- SnapshotRuns: a load is one step that succeeds or stops after some statements. A load that goes on in another process while a restore reads its database is covered up to that moment only, as a load that stops there. Diff and Delete take no lock, so two loads of one name can overlap as well, both finding no data and both creating all nodes, and a clear of another load can hit a load in progress; neither is modelled.
- SnapshotManager.SnapshotManager.CreateSnapshot: a file cut short is cut between two relationships; one cut within a relationship, whose last item reads damaged, is not modelled, and a file cut before them cannot be read, since reading it needs all three documents.
- Inheritance.Registry.ResolveInheritance: starts from types whose rule lists are separate arrays, as decoding leaves them; how much spare capacity a growing append reserves is left open, so SliceAppend.AlwaysReadsExactly speaks of all growths and not of that of one Go version.
- SyncService.SyncService.IncrementalSync: the kinds named by events must have clean field mappings and URI templates of which none begins like another, and their data no `uri` field; full syncs require clean mappings of all kinds.
- SyncService.SyncService.FullSync: requires that no two resources pulled have one URI (see above) and that the field mappings of all kinds are clean, without which Normalize has no single result.
- The messages of validation errors (which errors there are is Normalizer.Validate), and the order in which relation fields of one resource are visited (relationships are stated as a multiset).
- The sorted iteration of detectCycle and topoSort: the model visits the names in any order, which covers the sorted one; only the name reported in a cycle depends on it.
- The rendering of non-string values (`Sprintf("%v")`) and the comparison of property values (float conversion, NaN) are parameters of the model.
- YAML encoding and files: an archive is a value in a map; writing it may fail. The metadata cache, List, repositories, audit log, metrics and tracing.
- The clock is a counter that moves on with every access, so two accesses never have the same time.
- The Cypher comparison queries of Diff: only its two loads are modelled.
- A waiting writer blocks new readers in Go's RWMutex; LockProtocol allows them as well, which only adds interleavings. Liveness of the lock is not stated.
- LockProtocol treats every statement of a writer, and every statement without the lock on a database other than `default`, as arbitrary changes of the databases it may touch; what the statements do is the subject of GraphStore and SnapshotManager.
- Closing publishers and consumers, and primaries that are not pingers: the ping is an arbitrary outcome of each tick.
- EventBus.ChannelEventBus.Publish: one process without a waiting consumer; the unbuffered hand-over is in the transition system.
- IsisParser.Peer.SetField: case mapping is that of ASCII letters; the few other letters that lower to ASCII ones are not captured.
- IsisParser.FindProcessId: likewise for upper case; a line whose upper case has another length than the line is not captured, nor are invalid UTF-8 sequences.
- parseBGPTabular: it indexes the eighth of seven fields on some inputs, so it has no total specification.
- HTTP clients and handlers, tokens and encryption, configuration, MCP tools, the analysis engines (stubs), device queries.
