# GraphDB: a verified model

This project models the parts of GraphDB whose correctness spans many functions, and proves what they
are relied on for. It stands beside the Go sources (and one Python script); nothing in it runs them.
`dafny verify dfyconfig.toml` checks everything.

## What is modelled

**Tenant migration between shards** (`Sharding`, `Ownership`, `Transfer`, `Catalog`, `Migration`,
`MigrationSafety`, `TenantHistory`, `CatalogProgress`, `MigrationRun`, `MoveCompletion`, `LateReserve`, with the
imperative counterparts `CatalogApplication` and `ShardApplication`). A catalog, any number of data shards and
coordinators that may be stale, crash or repeat themselves form a transition system; messages may arrive late,
twice or never. The main results are single ownership, refinement of one unsharded tenant, exact chunk
reassembly, and that a move can always be brought to its end.

**The graph commit engine** (`GraphModel`, `GraphIndex`, `CopyOnWrite`, `UniqueFields`, `Fingerprint`,
`GraphReference`, `GraphConsistency`, `CommitSteps`, `Schema`, `SchemaChange`, `GraphCommit`, `GraphReload`,
`GraphPiece`, `GraphEffect`, `GraphWrite`, `GraphMerge`, `GraphOutcome`, `GraphImpact`, `HashCache`, `HashMeaning`,
`Identity`, `ShardedMap`). `GraphReference` says what a commit means by scanning
the store, changes of entity kinds included; `GraphCommit` is the engine that works through ten indexes, a
tracker, an XOR fingerprint and a hash cache and is proved equal to it; `GraphConsistency` shows that the
local checks of a commit preserve every global constraint under a schema that changes along the history.
`GraphPiece` takes a commit apart into requests committed one at a time; `GraphEffect`, `GraphWrite` and
`GraphMerge` say of each request, by the maps before and after alone, when it is accepted and what it does, so
that the local checks refuse nothing a consistent graph could take; `GraphOutcome` follows one entity and one
edge through a whole commit.
`CopyOnWrite` models index buckets that a storage copy shares with the published graph until it owns them,
and `ShardedMap` is a heap model of maps that share buckets after a clone.

**Ordered reads and caches** (`OrderedReads`, `NeighborOrder`): the merge of sorted postings, range
pruning by binary search, cached orders and the bounded adjacency cache.

**At-most-once protocols** (`Ingest`, `IngestOutcome`, `Backup`, `BackupOutcome`): the replicated ingest queue
with its cached pending index, what its records say after a flush, the backup worker's durable submissions, and
what a finished backup cycle has established.

Code that changes state in place is modelled by classes and methods proved against specification
functions; the theorems are about those functions, or invariants the methods keep.

## What is taken as given

- Each Raft group is one atomic register, and an object store operation is one atomic step.
- JSON and SHA-256 are functions. They are injective where a theorem says so (`Faithful`, the digest of
  an ingest request, canonical edge identities in `Injective`); for the XOR fingerprint and the hash
  cache they are arbitrary, except that a commit found to change nothing needs equal fingerprint entries
  to give equal cache entries (`Discerning`). Digests are never empty.
- A new move and a new backup cycle take an identity not used before (random command and UUID), and the
  server gives each task a new identity.
- Strings are compared by their units, which stand for bytes, and are already trimmed where the code
  trims its input; the one place where trimming matters, split replacements, keeps both spellings.
- `sort`, `sort.Search` and `container/heap` are modelled by small loops with the contracts of the Go
  standard library.
- How the contents of entities and edges are merged, which signatures given keys, fields and identity
  have, which entities given fields admit and which entities a stale request misses are parameters
  (`Base`, `Stale`); the theorems hold for all of them. `Under` derives from them what the schema at the
  time makes of an entity, so a change of entity kinds changes the rules. That a signature given by a key is
  never one given by a source (`Apart`) is proved of both encodings in `Identity`. Where references to merged
  entities matter, merging two entities keeps what either was merged from (`Remembers`); where equal content
  hashes are to mean equal content, digests name what they digest (`AllName`).
- A move can be brought to its end if its export is not empty and within the transfer limit, and nobody else
  acts meanwhile: the run that does so is given.

Two boundaries are preconditions. Split replacements must have an identity once trimmed. If they are also
spelled as they are stored, everything is captured; otherwise a commit may store replacements it has not
captured, which `Graph.Commit` collects in `missed`, and the fingerprint is then right exactly when their
entries cancel. `Graph.SplitMisspelled` is such a commit. A flush must not name a batch twice, and
`Ingests.RepeatedIdentity` says why. Switching the identity encoding is proved safe from the older one to
tuples; the other way `Identities.UseEncoding` gives the exact condition and `Identities.LegacyJoins` a
family that fails it.

Two promises one might expect do not hold, and the input is given. A pass of `flushReady` over everything
can end without an error while requests wait, because a changed route is no error
(`Ingests.IngestQueue.FlushReady`, `Ingests.CancelledMoveReroutes`). A reserve delivered late can leave its
target importing for a move that is over (`MigrationSafety.DiscardSealsExactly`,
`LateReserves.LateReserveLands`).

## Model

| member | source | states |
|---|---|---|
| `MigrationSafety.SingleOwner` | internal/ha/shard_ownership.go:51-122 | In every reachable state, whatever is delayed, repeated, lost, cancelled or stale, at most one shard is active for the tenant, an active shard's epoch is on record as served there, and no epoch was ever active on two shards |
| `MigrationSafety.NothingAcknowledgedIsLost` | internal/ha/shard_copy.go:16-89 | After every run the shard the catalog names, and every active shard, holds exactly the acknowledged operations replayed in order on one unsharded tenant |
| `MigrationSafety.TenantReplays` | internal/ha/application.go:322-334 | The unsharded tenant of the comparison is the replay of the acknowledged operations, nothing else |
| `TenantHistories.AcknowledgedOnce` | internal/ha/application.go:322-334 | After every run the shard the catalog names holds every acknowledged write exactly once, published or still waiting |
| `TenantHistories.WritesAreKept` | internal/ha/application.go:322-334 | Published and waiting writes are together all writes acknowledged, none lost or doubled |
| `TenantHistories.QueueIsInOrder` | internal/ha/ingest.go:151-233 | What waits are the newest ingested writes in their order: the queue is first in, first out |
| `TenantHistories.TasksWait` | internal/ha/application.go:322-334 | A task waits if and only if it was queued and has not run since |
| `MigrationSafety.NothingAppliedUnserved` | internal/ha/application.go:322-334 | While no shard is active, no client operation and no queued task changes any shard |
| `MigrationSafety.CutoverHasTheData` | internal/ha/shard_migration.go:91-126 | A cutover that still matches the catalog finds the source frozen and the target installed with the very data of the source |
| `MigrationSafety.EveryRunKeeps` | internal/ha/shard_migration.go:76-130 | The invariant relating catalog, shards, messages, exports and replies holds after every sequence of events |
| `MoveCompletions.MoveCompletes` | internal/ha/shard_migration.go:76-130 | From every reachable state in which the tenant rests with data and nothing outstanding, a move to any open shard without leftovers of an import can be brought to its end: the target alone then serves exactly the tenant's data, at the next epoch, and takes writes at that epoch only, the source is retired and empty, other shards are untouched and no move is underway |
| `MoveCompletions.PartsArrive` | internal/ha/shard_copy.go:49-78 | The remaining parts of an export can be staged one after the other, each answered, until the target holds them all |
| `MigrationSafety.DiscardSealsExactly` | internal/ha/shard_ownership.go:110-122 | After an acknowledged discard a late reserve of the same move succeeds if and only if the target had been retired at an older epoch |
| `LateReserves.LateReserveLands` | internal/ha/shard_ownership.go:48-122 | A run of the whole system in which two moves to one target are cancelled one after the other, both discards acknowledged, and the second's reserve arrives when the catalog shows no move: the target imports for it, and refuses the reserve of every other move from then on |
| `LateReserves.CancelledMove` | internal/ha/shard_migration.go:76-130 | From any point at which a shard serves a drained tenant, a move whose target answers the discard can be started, frozen, cancelled, thawed and discarded while its reserve is still under way; the source then serves the same data at the next epoch |
| `Catalogs.EveryRunIsValid` | internal/ha/shard_catalog.go:36-195 | After any log of actions placement state and phase pair as designed, a move's epoch is the placement's or its successor by phase, and no placement or move names an unregistered shard |
| `Catalogs.EveryRunHasHistory` | internal/ha/shard_catalog.go:102-169 | With fresh move identities a tenant's placements follow each other in epoch order, a move identity has one source, target and epoch, and no move both cut over and cancelled |
| `Catalogs.FinishedMoveRaisedEpoch` | internal/ha/shard_catalog.go:102-169 | In every run with fresh move identities, once a move the tenant had is no longer underway the placement's epoch is at least the move's, and above the epoch at which it was copying or being cancelled |
| `Catalogs.MoveStaysOver` | internal/ha/shard_catalog.go:102-169 | In every such run a move that is over at some point is over ever after, whatever actions arrive late or again |
| `Catalogs.DrainingOnlyShrinks` | internal/ha/shard_catalog.go:36-195 | Over any log without a resume or removal of a draining shard it keeps draining, also when registered again, and no tenant's placement or move comes to name it |
| `CatalogProgress.MoveCompletes` | internal/ha/shard_catalog.go:137-152 | In a valid catalog a copying move that is cut over, activated and cleaned is accepted three times and leaves the tenant live on its target at the next epoch, without a move; nothing else of the catalog changes |
| `CatalogProgress.MoveIsCancelled` | internal/ha/shard_catalog.go:153-169 | Cancelled, thawed and discarded, it leaves the tenant live on its source at the next epoch |
| `CatalogProgress.AssignedCanMove` | internal/ha/shard_catalog.go:102-136 | A tenant assigned to an open shard and reported is live there at epoch 1, and a move to another open shard then starts |
| `CatalogProgress.AcceptedByState` | internal/ha/shard_catalog.go:102-169 | In a valid catalog the state of a placement and the end it is on tell exactly which actions are accepted: every report once, for the move under way, when its turn has come |
| `CatalogProgress.AcceptedUnplaced` | internal/ha/shard_catalog.go:102-118 | Without a placement only an assignment to an open shard is accepted, and it begins at epoch 1 |
| `CatalogProgress.AgainIsHarmless` | internal/ha/shard_catalog.go:102-184 | An accepted tenant action, sent again, leaves every placement as it is |
| `CatalogProgress.ErrorIsNoted` | internal/ha/shard_catalog.go:170-180 | An error is accepted exactly for the move under way in its phase, and changes nothing but the note |
| `CatalogProgress.RegisterIsExact` | internal/ha/shard_catalog.go:48-65 | A shard is registered exactly when its definition is valid and cluster and shard belong together for good; it keeps whether it drains |
| `CatalogProgress.ShardCycle` | internal/ha/shard_catalog.go:66-90 | Draining closes a registered shard, resuming opens it, and only a closed shard that no placement or move names is removed |
| `CatalogApplications.LeastPopulatedShard` | internal/ha/shard_catalog.go:201-220 | The loop over counts selects the open shard with the fewest tenants, the first by name among equals, or none when no shard is open |
| `CatalogApplications.LeastPopulatedIsUnique` | internal/ha/shard_catalog.go:201-220 | That description determines the selected shard, so every replica selects the same one |
| `CatalogApplications.CountTenants` | internal/ha/shard_catalog.go:201-220 | The counting loop gives each shard the number of tenants placed on it |
| `CatalogApplications.CatalogApplication.Apply` | internal/ha/shard_catalog.go:36-195 | The published and the stored catalog after an action, committed or not, against the specification; a failed batch drops the published copy |
| `CatalogApplications.CatalogApplication.Decide` | internal/ha/shard_catalog.go:36-195 | The branches of applyCatalog compute the specified successor and reply for every action |
| `ShardApplications.ShardApplication.Apply` | internal/ha/shard_ownership.go:37-194 | The record-rewriting code of all nine ownership operations computes the specified successor and reply |
| `ShardApplications.ShardApplication.Stage` | internal/ha/shard_ownership.go:123-164 | Staging a part, with its digest loop and stored chunk, computes the specified successor and reply for replayed, early and malformed parts alike |
| `ShardApplications.ShardApplication.InstallTransfer` | internal/ha/shard_transfer.go:104-258 | Reading the staged chunks back and checking size, digest, tenant and move gives the specified result, and replaces the data only on success |
| `ShardApplications.ShardApplication.RemoveTenant` | internal/ha/shard_ownership.go:222-242 | Removal leaves no data and no staged chunk of the tenant |
| `ShardApplications.RestoreReader.Read` | internal/ha/restore.go:173-228 | Each read returns the next bytes of the staged parts in order, ends only after all of them and fails only when a part is missing or differs from its digest |
| `ShardApplications.RestoreReader.ReadAll` | internal/ha/restore.go:173-228 | Reading until the end gives the announced bytes or fails, for every buffer size |
| `ShardApplications.CopyTenantMove` | internal/ha/shard_copy.go:16-89 | A resumed copy stages at most eight parts a pass, and installs exactly when the rest fits; what is installed is the exported content |
| `Transfers.StageCarries` | internal/ha/shard_copy.go:49-78 | Staging the next slice of an export keeps the target carrying that export |
| `Transfers.EveryRunStaysStaged` | internal/ha/shard_ownership.go:123-182 | Under any sequence of requests to a shard, replayed or out of order, the parts stored are a contiguous prefix with one digest each and sizes that tile the transfer |
| `Transfers.AssembleJoins` | internal/ha/restore.go:173-228 | Once every part is there, assembling gives their concatenation, of exactly the announced length |
| `Transfers.InstallIsExact` | internal/ha/shard_transfer.go:104-137 | Install succeeds if and only if the staged bytes are complete, have the announced length and digest and decode to this tenant's export for this move; no other byte string has that digest |
| `Transfers.SlicesTile` | internal/ha/shard_copy.go:49-78 | The parts of an export, joined from any part on, are the export from that offset on |
| `Transfers.ReplayIsHarmless` | internal/ha/shard_ownership.go:123-164 | A part sent again with the same bytes changes nothing but a digest not yet announced; other bytes, or a part ahead of the next one, are refused |
| `Transfers.RepeatIsHarmless` | internal/ha/shard_ownership.go:37-194 | Every answered ownership action, sent again, is answered with the same record and changes nothing |
| `GraphConsistency.CommitKeepsGood` | internal/graph/apply.go:181-423 | Every successful commit, mixing all mutation kinds and changes of entity kinds, leaves an acyclic schema with all parents and under it every edge valid, every cardinality, every unique field and every identity of the whole graph kept, though only changed edges, changed entities and the kinds below changed ones were checked |
| `GraphConsistency.EveryHistoryStaysGood` | internal/graph/apply.go:181-423 | So does every history of commits, each under the schema the ones before it left, rejected ones included |
| `GraphPieces.CommitIsItsPieces` | internal/graph/apply.go:181-423 | A commit is accepted, and results, exactly as its requests committed one at a time in the order of the stages; only kinds, and relation types to define, go together |
| `GraphOutcomes.DeletedAreGone` | internal/graph/apply.go:262-273 | After a commit an entity that a plain delete names when its turn comes, by its identity or as the only one merged from it, is gone unless the commit stores it again, and no edge is at it unless the commit asks for one there |
| `GraphOutcomes.TakenAreGone` | internal/graph/apply.go:237-375 | The same of every request that takes an entity away: ranked deletes, deletes by a stale source, sources of merges and splits |
| `GraphOutcomes.StoredAreThere` | internal/graph/apply.go:302-375 | An entity that a request stores is there after the commit, unless a later request of it asks for it to go |
| `GraphOutcomes.ComesOnlyIfAsked` | internal/graph/apply.go:181-423 | Between any two points of a commit an entity appears only if an upsert names or generates it or a split stores it |
| `GraphOutcomes.GoesOnlyIfAsked` | internal/graph/apply.go:181-423 | It disappears only if a request names it, and with sufficient rank |
| `GraphOutcomes.JoinsOnlyIfAsked` | internal/graph/apply.go:181-423 | An entity without edges gets one only by an edge upsert there or as the target of a merge |
| `GraphOutcomes.UnnamedEntityStays` | internal/graph/apply.go:181-423 | An entity that no request names, by identity, former identity, signature or source, is the same after a commit |
| `GraphOutcomes.EdgeStays` | internal/graph/apply.go:181-423 | An edge that no request names, by identity, alias, type, ends or a merge at its ends, is the same after a commit unless a request takes an entity at one of its ends away |
| `GraphOutcomes.UnnamedEdgeStays` | internal/graph/apply.go:181-423 | So is an edge that no request names, if none names its ends |
| `GraphEffects.EntityDeleteEffect` | internal/graph/apply.go:262-273 | A delete by reference is refused only without one; what it alone stands for goes with exactly its edges |
| `GraphEffects.EntityRequestEffect` | internal/graph/apply.go:237-261 | A ranked delete by reference takes the entity if and only if the request ranks no lower |
| `GraphEffects.EntityIdentityEffect` | internal/graph/entity_delete.go:9-24 | By kind and identity: refused only if incomplete or if two entities share it |
| `GraphEffects.EdgeDeleteEffect` | internal/graph/apply.go:193-211 | An edge delete is refused only without a reference or for an ambiguous alias, and takes the edge named and no other |
| `GraphEffects.EdgeRequestEffect` | internal/graph/apply.go:212-236 | A ranked edge delete by reference takes it if and only if the request ranks no lower |
| `GraphEffects.EdgeBetweenEffect` | internal/graph/apply.go:212-236 | So does one by type and ends, for the edge with these |
| `GraphEffects.RelationDeleteEffect` | internal/graph/relation_mutation.go:5-35 | Deleting relation types takes exactly them and their edges |
| `GraphEffects.RelationUpsertEffect` | internal/graph/relation_mutation.go:37-55 | Defining relation types in a consistent graph is accepted if and only if each can be defined and all edges are valid and free of conflicts under the last definition of each name, which is what is stored |
| `GraphEffects.KindChangeEffect` | internal/graph/ci_type_mutation.go:5-52 | Changing kinds in a consistent graph is accepted if and only if no kind in use is deleted, the whole graph is consistent under the schema that results and entities at or below a changed kind fit it |
| `GraphWrites.UpsertEffect` | internal/graph/entity_upsert_prepare.go:17-86 | An entity upsert into a consistent graph is accepted if and only if it is about one entity, whose kind it keeps, and all entities are told apart with the value it stores; it stores that value, and nothing else changes |
| `GraphWrites.StaleEffect` | internal/graph/entity_stale.go:9-58 | Entities that a source misses go with their edges when it ranks no lower, or are marked; nothing else changes |
| `GraphWrites.SplitEffect` | internal/graph/split.go:8-85 | A split of a consistent graph is accepted if and only if its source exists, the replacements fit and have new identities, and all entities are told apart afterwards; source and edges are then replaced by exactly them |
| `GraphWrites.EdgeUpsertEffect` | internal/graph/apply.go:376-417 | An edge upsert into a consistent graph is accepted if and only if the edge is valid and conflicts with none anywhere, and stores that edge only, with an identity it came with as an alias |
| `GraphMerges.MergeEffect` | internal/graph/merge.go:8-76 | A merge into a consistent graph is accepted if and only if its sources exist once each and are of the target's kind, the target fits, entities are told apart and no two edges conflict where they then are; the sources are gone, every edge has moved along and none is lost, and everything else is as it was |
| `GraphMerges.MergedAreNamed` | internal/graph/graph.go:232-249 | After a merge, references to its sources and to all that was merged into them or the target stand for the target |
| `GraphMerges.AllRedirected` | internal/graph/merge_edges.go:8-52 | The redirect loop puts every edge where its ends now are; one that meets no other keeps its aliases and gets its old identity as one |
| `GraphMerges.MeetingEdges` | internal/graph/merge_edges.go:36-46 | Where a moved edge meets another, the other is merged into it |
| `GraphConsistency.ChangeTypesKeepsGood` | internal/graph/ci_type_mutation.go:5-52 | After deleting and redefining entity kinds the constraints of the whole graph hold under the new rules, though only entities of the affected kinds were validated |
| `GraphConsistency.UnaffectedInherits` | internal/graph/ci_type_mutation.go:63-89 | A kind that is not below a changed one inherits exactly the fields it did |
| `GraphConsistency.KindsKeepUnique` | internal/graph/schema.go:145-182 | Validating the entities of the kinds below changed ones keeps unique fields unique over all entities under the new schema |
| `GraphConsistency.KindsKeepIdentities` | internal/graph/schema.go:184-210 | Checking identity owners among those kinds keeps every identity of every kind with one owner, although keys of changed kinds give other signatures |
| `SchemaChanges.AffectedKinds` | internal/graph/ci_type_mutation.go:63-89 | The queue over child lists reaches a kind if and only if it is changed or some path of parents leads from it to a changed one |
| `SchemaChanges.ValidateEntities` | internal/graph/schema.go:145-210 | One pass with the unique-field validator and a table of identity owners accepts if and only if the entities of the given kinds fit their fields and share neither a unique field nor an identity given by a key |
| `GraphConsistency.ReloadAccepts` | internal/graph/graph.go:63-110 | With the standard relation types seeded again a snapshot of such a graph meets the same constraints, so it is not rejected for its edges |
| `GraphConsistency.MergeEntitiesKeepsGood` | internal/graph/merge.go:8-76 | After a merge it is enough to have validated the redirected edges |
| `GraphConsistency.RedirectAllMoves` | internal/graph/merge_edges.go:8-52 | After each pass of the redirect loop the edges still to come are untouched, edges differ only at affected identities, and finally none is incident to the source |
| `GraphConsistency.RedirectAllOk` | internal/graph/merge_edges.go:8-52 | Redirecting keeps every edge valid against relation types and kinds |
| `GraphConsistency.CheckedAll` | internal/graph/edge_validate.go:95-124 | Checking the cardinality of each unchecked edge excludes every conflict in the graph |
| `GraphConsistency.UpsertRelationsKeepsGood` | internal/graph/relation_mutation.go:37-55 | Redefining relation types needs only the edges of those types checked |
| `GraphConsistency.DeleteRelationsKeepsGood` | internal/graph/relation_mutation.go:5-35 | Deleting relation types with their edges leaves the rest consistent |
| `GraphConsistency.UpsertEntityKeepsGood` | internal/graph/entity_upsert_prepare.go:17-86 | An accepted upsert keeps kinds at edge ends, unique fields and identities |
| `GraphConsistency.SplitEntityKeepsGood` | internal/graph/split.go:8-85 | A split into named replacements keeps the constraints |
| `GraphConsistency.MarkStaleKeepsGood` | internal/graph/entity_stale.go:9-58 | Marking or deleting stale entities keeps the constraints |
| `GraphConsistency.UpsertEdgeKeepsGood` | internal/graph/apply.go:376-417 | Validating the one stored edge is enough for an edge upsert |
| `GraphCommits.Graph.Commit` | internal/graph/apply.go:181-423 | The indexed engine, changes of entity kinds included, accepts exactly when the scanning reference accepts, with its content; all ten indexes are then those of a rebuild; the XOR fingerprint is the fold over the whole graph if and only if the entries of the replacements it stored without capturing cancel, and there are none when replacements are spelled as stored; the change report says exactly whether an entry differs; after a change the refreshed hash cache is that of a fresh build if and only if every stored key was captured; global constraints are kept; and what readers of the published graph find is as it was, also on failure |
| `GraphCommits.Graph.SplitMisspelled` | internal/graph/content_fingerprint.go:126-133 | A concrete failing commit: a split whose one replacement is not spelled as it is stored is accepted, and the fingerprint is right afterwards if and only if the replacement's entry is zero |
| `GraphCommits.Graph.ApplyBatch` | internal/graph/apply.go:84-144 | A batch on one private copy succeeds exactly when each commit, applied one at a time, succeeds and changes something, and then gives the same content and fingerprint and the hash cache of a fresh build; the indexes and blocks of the published graph stay as they were |
| `GraphCommits.Graph.ApplyCommits` | internal/graph/apply.go:84-144 | The batch applied from the published graph: a copy made for the joint impact of the commits takes them all, the result is the one-at-a-time result, and the buckets and blocks that readers of the published graph reach hold what they held, whether or not the batch succeeds |
| `GraphCommits.Graph.Copy` | internal/graph/copy_on_write.go:56-97 | A storage copy shares every bucket with its source, has its content, fingerprint and cache, and starts with every index exact and what readers find recorded |
| `GraphCommits.Graph.ChangeKinds` | internal/graph/ci_type_mutation.go:5-52 | Deleting and redefining kinds, validating only the affected kinds in use and rebuilding the identities of only the changed kinds in use accepts as the reference does and leaves all indexes exact under the new rules |
| `GraphCommits.Graph.ContentHash` | internal/graph/content_hash_stream.go:19-48 | The content hash, built on first use and cached, is the digest over the blocks of a fresh build of all four categories, with the total size of their entries |
| `GraphCommits.Graph.MergeOne` | internal/graph/merge.go:8-76 | Merging through the indexes, with the target out of them meanwhile, accepts and results as the reference does and misses no changed key |
| `GraphCommits.Graph.RedirectEdges` | internal/graph/merge_edges.go:8-52 | The in-place redirect loop gives the reference's edges and affected identities and captures every edge it touches |
| `GraphCommits.Graph.FindByIdentity` | internal/graph/identity.go:34-59 | Looking signatures up in the identity index finds the one entity of the kind that has any of them, reports conflicting owners, and whether a rejecting signature matched |
| `GraphCommits.Graph.ResolveUpsert` | internal/graph/identity.go:11-32 | The entity an upsert is about, as a scan would decide it |
| `GraphCommits.Graph.UpsertOne` | internal/graph/entity_upsert_prepare.go:17-86 | One entity upsert accepts and results as the reference does |
| `GraphCommits.Graph.Fits` | internal/graph/apply.go:322-327 | Validator and identity index together answer exactly whether another entity shares a unique field or identity, also while the entity itself is out of the indexes |
| `GraphCommits.Graph.MarkSourceStale` | internal/graph/entity_stale.go:9-58 | The pass over all entities in order amounts to one simultaneous change |
| `GraphCommits.Graph.SplitOne` | internal/graph/split.go:8-85 | A split accepts and results as the reference does, and the replacements stored without having been captured are exactly those whose stored identity nothing had captured |
| `GraphCommits.Graph.DeleteRelationTypes` | internal/graph/relation_mutation.go:5-35 | Deleting through the type index removes exactly the types and their edges |
| `GraphCommits.Graph.UpsertRelationTypes` | internal/graph/relation_mutation.go:37-55 | Accepted exactly when every edge of a redefined type passes validation afterwards |
| `GraphCommits.Graph.UpsertEdgeOne` | internal/graph/apply.go:376-417 | One edge upsert accepts and results as the reference does |
| `GraphCommits.Graph.ValidateCardinality` | internal/graph/edge_validate.go:95-124 | Looking at the neighbours of one or both ends finds a conflict exactly when one exists anywhere in the graph |
| `GraphCommits.Graph.RemoveEntity` | internal/graph/entity_delete.go:26-42 | An entity goes with exactly its incident edges |
| `GraphCommits.Graph.DeleteEntityRequested` | internal/graph/apply.go:237-261 | A ranked delete by reference or by source identity, against the reference |
| `GraphCommits.Graph.DeleteEdgeRequested` | internal/graph/apply.go:212-236 | A ranked edge delete by reference or by endpoints, against the reference |
| `GraphCommits.Graph.LookupEdge` | internal/graph/edge_delete.go:25-46 | An edge reference resolves by identity, by its one alias, or is ambiguous, as a scan says |
| `GraphCommits.Graph.LookupEntity` | internal/graph/graph.go:232-249 | An entity reference resolves by identity or by the one entity merged from it |
| `GraphCommits.Graph.IncidentEdges` | internal/graph/affected_edges.go:5-19 | The adjacency indexes give the incident edges, sorted |
| `GraphCommits.Graph.Finish` | internal/graph/content_fingerprint.go:167-220 | Exchanging the entries of captured keys in all four categories gives the fingerprint of the content as it is now if and only if the entries of the keys stored without being captured cancel |
| `GraphCommits.Graph.EnsureFingerprint` | internal/graph/content_fingerprint.go:31-69 | The fingerprint from scratch is the XOR over every entry of all four categories |
| `CommitSteps.FingerprintIsUnique` | internal/graph/content_fingerprint.go:31-69 | A content has one fingerprint, in whatever order it was computed |
| `CommitSteps.SameEntriesSameValues` | internal/graph/content_fingerprint.go:167-220 | With an injective hash a commit that reports no change left every value as it was |
| `CommitSteps.RefreshIsExact` | internal/graph/content_hash_cache.go:136-183 | A cache refreshed on the captured keys is that of a fresh build of the new content if and only if every key stored was captured |
| `CommitSteps.UnchangedIsCached` | internal/graph/content_fingerprint.go:208-220 | When a commit reports no change and the refresh is skipped, the old cache is that of the new content, if equal fingerprint entries give equal cache entries |
| `CommitSteps.LostShows` | internal/graph/content_fingerprint.go:126-133 | A digest that leaves some keys out is right if and only if the entries of those keys cancel |
| `GraphReloads.ValidateAllCardinalities` | internal/graph/edge_validate.go:39-71 | One pass with two sets of occupied ends succeeds if and only if no two edges conflict |
| `GraphReloads.ValidateAllEdges` | internal/graph/edge_validate.go:5-12 | Succeeds if and only if every edge is valid and no two conflict |
| `GraphReloads.Reload` | internal/graph/graph.go:63-110 | A snapshot of a consistent graph is always accepted: its own relation types override the seeded ones, canonicalizing its entities and merging its edge list change no identity and merge nothing, and every constraint holds of what is loaded |
| `GraphReloads.CanonicalizeEntities` | internal/graph/entity_canonical.go:47-79 | The pass over entities in order merges none, and only fills in field sources, if and only if no two entities of a kind share a source identity |
| `GraphReloads.MergeEdges` | internal/graph/edge_merge.go:120-139 | Merging an edge list keyed by canonical identities, with no alias to follow, merges no two edges |
| `GraphReloads.LoadedIsGood` | internal/graph/graph.go:63-110 | What loading fills in keeps every constraint |
| `GraphImpacts.ImpactCovers` | internal/graph/copy_on_write.go:30-54 | A successful commit leaves entity kinds, entities, relation types and edges as they were where its computed impact says so, so only maps under a set flag need be copied |
| `GraphImpacts.BatchCovers` | internal/graph/apply.go:98-110 | The joint impact of a batch covers each of its commits |
| `GraphIndexes.EntityIndex.Add` | internal/graph/index.go:109-125 | Adding keeps kind sets and counts, aliases, postings, composite counters and identities those of a rebuild |
| `GraphIndexes.EntityIndex.Remove` | internal/graph/index.go:68-93 | Removing does too, without leaving empty buckets |
| `GraphIndexes.EntityIndex.Update` | internal/graph/index.go:127-171 | Updating only what changed gives the indexes of a rebuild, also when the kind changes |
| `GraphIndexes.EntityIndex.Fill` | internal/graph/index.go:8-66 | The rebuild loop gives the described indexes in any order of entities |
| `GraphIndexes.EntityIndex.RebuildKinds` | internal/graph/ci_type_mutation.go:104-129 | Rebuilding the identities of some kinds in maps of the copy's own makes the identity index exact under new rules, if entities of other kinds have the signatures they had, and leaves what readers find alone |
| `GraphIndexes.EntityIndexIsUnique` | internal/graph/index.go:8-66 | The description determines all six entity indexes, bucket for bucket, so maintained and rebuilt ones are equal |
| `GraphIndexes.EdgeIndexIsUnique` | internal/graph/index.go:8-66 | It determines the four edge indexes |
| `GraphIndexes.EdgeIndex.Add` | internal/graph/index.go:246-258 | Adding an edge keeps adjacency, types and aliases those of a rebuild |
| `GraphIndexes.EdgeIndex.Remove` | internal/graph/index.go:210-244 | Removing one does too |
| `CopyOnWrites.PostIs` | internal/graph/copy_on_write.go:117-227 | Adding to a bucket through `writable` makes the copy read the bucket with the entry and the published graph the old bucket, and keeps every bucket the copy may write its own alone |
| `CopyOnWrites.UnpostIs` | internal/graph/index.go:210-244 | Removing, with deletion of a bucket that becomes empty, does likewise |
| `CopyOnWrites.PostFieldIs` | internal/graph/copy_on_write.go:243-297 | So does adding to the posting of a field value through three nested owned levels |
| `CopyOnWrites.ClaimIs` | internal/graph/copy_on_write.go:229-241 | So does claiming signatures in the owner map of a kind |
| `CopyOnWrites.WritableIs` | internal/graph/copy_on_write.go:117-297 | A bucket made writable is the graph's own, reads as before on both sides, and stays its own under every later write |
| `GraphIndexes.IdentifiesSeparates` | internal/graph/identity_validate.go:5-18 | Where the identity index is exact no two entities of a kind share a signature |
| `GraphIndexes.CountsFollow` | internal/graph/index_entity_coverage.go:8-21 | The composite counters of a kind and of all kinds follow the number of entities holding a composite in the field |
| `UniqueFields.Validator.Validate` | internal/graph/unique_validation.go:99-139 | Accepts if and only if no other stored entity of the kind shares a unique field value, whatever stale entries the commit-local index has kept |
| `UniqueFields.Validator.EnsureKind` | internal/graph/unique_validation.go:55-97 | Filling the index for a kind late still lists every composite unique value stored |
| `UniqueFields.Validator.FieldTaken` | internal/graph/unique_validation.go:99-139 | Scalars by the postings, composites by candidates checked against the store, others by scan, answer alike |
| `UniqueFields.AcceptedStaysUnique` | internal/graph/unique_validation.go:141-171 | Storing an accepted entity keeps unique fields unique |
| `Fingerprints.FoldStep` | internal/graph/content_fingerprint.go:167-220 | Exchanging the entry of one changed key keeps the digest the fold over all entries |
| `Fingerprints.FoldIsUnique` | internal/graph/content_fingerprint.go:31-69 | The fold over a category does not depend on order |
| `Fingerprints.FinishCategory` | internal/graph/content_fingerprint.go:167-220 | The loop over captured keys gives the fold of the changed category and reports a change exactly when an entry differs |
| `Fingerprints.UnionFold` | internal/graph/content_fingerprint.go:31-69 | The fold over disjoint entries is the XOR of their folds |
| `HashCaches.RefreshCache` | internal/graph/content_hash_cache.go:136-183 | Refreshing the captured keys of the four categories and rehashing their blocks, shared blocks copied first, gives the blocks, digests and byte total of a fresh build of the content with those keys as they are now, and leaves the blocks of the graph it was shared with alone |
| `HashCaches.RefreshCategory` | internal/graph/content_hash_cache.go:136-183 | The loops over the touched keys and over the touched blocks do so for one category |
| `HashCaches.BuildCache` | internal/graph/content_hash_cache.go:79-124 | A build holds each value's hash in its block, a digest over each non-empty block in key order and the total size, for all four categories |
| `HashCaches.HashIsUnique` | internal/graph/content_hash_stream.go:19-48 | Two caches of one content, refreshed or built, have the same blocks, size and content hash |
| `HashMeanings.EqualHashesEqualContent` | internal/graph/content_hash_cache.go:48-77 | Graphs with one content hash have the same kinds, entities, relation types and edges, as far as the entries hash them |
| `HashCaches.SharedCacheFor` | internal/graph/content_hash_cache.go:126-134 | A shared cache is a cache of the same content and its reader's blocks are the source's |
| `HashCaches.CacheForIsolates` | internal/graph/content_hash_cache.go:126-183 | Readers of the graph a cache was shared with find its blocks as they were |
| `Identities.TupleInjective` | internal/graph/identity.go:135-143 | The length-prefixed encoding of a list of parts determines the parts |
| `Identities.SignatureInjective` | internal/graph/identity.go:108-133 | Tuple signatures tell all rule and source identities apart |
| `Identities.TuplesRefineLegacy` | internal/graph/identity.go:108-163 | Identities with one tuple signature have one signature in the older encoding |
| `Identities.LegacyJoins` | internal/graph/identity.go:157-163 | The converse fails: a family of pairs the older encoding joins and tuples keep apart |
| `Identities.TuplesStaySeparate` | internal/graph/identity.go:185-204 | If no identity had two owners under the older encoding, none has under tuples |
| `Identities.UseEncoding` | internal/graph/identity.go:185-204 | The rebuilt identity index is exact if and only if no signature of the new encoding is claimed twice |
| `Identities.RulesApartFromSources` | internal/graph/identity.go:108-163 | In either encoding a signature given by a key is never one given by a source |
| `Schemas.ValidateCITypes` | internal/graph/schema.go:101-143 | Accepts if and only if every parent exists and no inheritance path comes round; when the queue runs dry early the loop after it always finds a cycle to report |
| `Schemas.RankRest` | internal/graph/schema.go:101-143 | A schema with all parents and no cycle can be ranked, children above parents |
| `Schemas.RankedIsAcyclic` | internal/graph/schema.go:101-143 | A ranked schema has all parents and no cycle |
| `Schemas.StuckHasCycle` | internal/graph/schema.go:122-141 | Kinds that each keep an unvisited parent contain a cycle |
| `Schemas.EffectiveFields` | internal/graph/schema.go:54-91 | On a ranked schema, with any correct memo, never reports a cycle or missing parent, equals the unmemoized inheritance and leaves the memo correct |
| `Schemas.FieldsOf` | internal/graph/schema.go:93-99 | On an accepted schema every kind has its inherited fields |
| `Schemas.FieldsFromAncestors` | internal/graph/schema.go:54-91 | A kind has a field if and only if it or some ancestor along a path of parents defines it |
| `Schemas.NearestDefinitionWins` | internal/graph/schema.go:73-90 | A field is defined as the kind itself defines it, else as the last parent that has it does |
| `ShardedMaps.ShardedMap.Set` | internal/graph/sharded_map.go:82-97 | In a family of maps that share buckets, setting a key updates this map as a mathematical map, its size included and across the move to a directory, and leaves every other map and the family's isolation alone |
| `ShardedMaps.ShardedMap.Delete` | internal/graph/sharded_map.go:99-104 | Deleting does likewise, and nothing for an absent key |
| `ShardedMaps.ShardedMap.Clone` | internal/graph/sharded_map.go:106-122 | A clone has the same content, and the family with it stays isolated: every bucket reachable from two maps is marked shared |
| `ShardedMaps.ShardedMap.Get` | internal/graph/sharded_map.go:36-47 | Reads the value of the map, in its home bucket |
| `ShardedMaps.ShardedMap.Collect` | internal/graph/sharded_map.go:124-147 | Visiting all buckets gives exactly the entries of the map |
| `ShardedMaps.Spread` | internal/graph/sharded_map.go:90-96 | The directory a small map moves to holds every entry in the bucket of its key, in new buckets only |
| `OrderedReads.VisitSortedIDs` | internal/graph/read_ids.go:283-313 | The k-way merge visits the non-empty identities of the postings from the start on, strictly increasing, once each, until the visitor has enough |
| `OrderedReads.VisitMeans` | internal/graph/read_ids.go:283-313 | A visit is in order and without a gap, until the visitor has had enough or nothing is left |
| `OrderedReads.FieldValuesInRange` | internal/graph/read_range.go:139-163 | Binary search keeps exactly the ordered values within the bound, prefixes included, and none for a bound that is no number |
| `OrderedReads.PrefixBetween` | internal/graph/read_range.go:157-161 | Strings with a prefix are contiguous in the order |
| `OrderedReads.FieldReads.VisitFiltered` | internal/graph/read_range.go:45-88 | Narrowing and merging visits exactly the identities under keys that the bounds and the filter let through; with a filter that implies the bounds that is the full scan |
| `OrderedReads.FieldReads.Add` | internal/graph/index.go:186-192 | After a posting is added every cached order still is the order of the postings now |
| `OrderedReads.FieldReads.Remove` | internal/graph/index.go:173-184 | Likewise when one is removed |
| `OrderedReads.FieldReads.SortedIDs` | internal/graph/read_ids.go:154-178 | Cached or not, the sorted postings of a value |
| `OrderedReads.FieldReads.SortedValues` | internal/graph/read_range.go:90-137 | Cached or not, the readable values of the field in text and number order |
| `OrderedReads.Search` | internal/graph/read_range.go:145-150 | The least index from which on a monotone condition holds |
| `NeighborOrders.NeighborOrder.VisitNeighbors` | internal/graph/read_neighbors_page.go:87-116 | A page from any start edge is what the visitor takes of the filtered neighbors' suffix from that edge on, through the cache and after any edge changes |
| `NeighborOrders.PageMeans` | internal/graph/read_neighbors_page.go:87-116 | A page holds the filtered neighbors from the start edge on, in order and without a gap, until the visitor has had enough or none is left |
| `NeighborOrders.NeighborOrder.FilteredNeighbors` | internal/graph/read.go:134-197 | The filtered neighbors in order, once each |
| `NeighborOrders.NeighborOrder.SortedNeighbors` | internal/graph/read_neighbors_page.go:17-83 | The adjacency order of an entity as the edges are now, cached or computed |
| `NeighborOrders.NeighborOrder.Evict` | internal/graph/read_neighbors_page.go:70-75 | The eviction loop ends with room for the new order, because the byte counter is exact |
| `NeighborOrders.NeighborOrder.AddEdge` | internal/graph/index.go:246-252 | Forgetting the orders at both ends of a new edge keeps every cached order current and the counter exact |
| `NeighborOrders.NeighborOrder.RemoveEdge` | internal/graph/index.go:210-217 | Likewise for a removed edge |
| `NeighborOrders.NeighborOrder.Invalidate` | internal/graph/read_neighbors_page.go:5-15 | Afterwards no order of the entity is cached, and the counter is the sum over what is |
| `NeighborOrders.PageIsRest` | internal/graph/read_neighbors_page.go:87-116 | Seeking in the unfiltered order and then filtering is seeking in the filtered order |
| `Ingests.EveryRunPublishesOnce` | internal/ha/ingest.go:95-233 | For every log of accepts and well-built flushes each batch identity is published at most once, as the request first accepted, and its record is then finished |
| `IngestOutcomes.FlushOutcome` | internal/ha/ingest.go:151-233 | A flush is answered with results if and only if it is routed to a serving shard, names the tenant's batches, and the store answers for all of them or says that the tenant is gone; then each waiting batch's record says committed if its number of failed items is zero and failed otherwise, with that number, which is the store's, all items of a tenant that is gone, or at least one for refused identifiers; other records are as they were, and what was handed over is published in order if the store applied it |
| `IngestOutcomes.AcceptOutcome` | internal/ha/ingest.go:95-149 | A batch under a new identity is accepted if and only if the queue has room and the tenant takes writes, and then waits with its request |
| `IngestOutcomes.AppliedIsPublished` | internal/ha/ingest.go:193-230 | A waiting batch that a store applies is published as it was accepted |
| `Ingests.FinishedStays` | internal/ha/ingest.go:177-179 | A finished record is never changed again by any log |
| `Ingests.RetryOrConflict` | internal/ha/ingest.go:95-149 | A used identity is acknowledged as a retry or rejected as a conflict exactly as the request equals the first one, also after the request was trimmed from the record |
| `Ingests.RepeatedIdentity` | internal/ha/ingest.go:165-193 | A flush naming an accepted identity twice would publish it twice: why flushes must be well built |
| `Ingests.IngestQueue.AcceptBatch` | internal/ha/ingest.go:95-149 | Computes the specified successor and reply, the byte budget included, whether the pending index was cached or not |
| `Ingests.IngestQueue.FlushBatch` | internal/ha/ingest.go:151-233 | The loops over records, entries and results compute the specified successor and results |
| `Ingests.IngestQueue.Save` | internal/ha/ingest.go:48-74 | Saving a record keeps a cached pending index and its bytes equal to a scan of the records |
| `Ingests.IngestQueue.EnsurePending` | internal/ha/ingest_pending.go:25-53 | The scan builds the index and its byte total |
| `Ingests.PickBatch` | internal/ha/ingest.go:371-408 | A batch is never empty, repeats no identity, starts with the oldest waiting request, stays in one generation and within both limits unless it is a single request |
| `Ingests.IngestQueue.FlushTenant` | internal/ha/ingest.go:327-364 | When the answer to a flush is no error the flush was delivered; if its owner had not changed fewer of the tenant's requests wait, and if it had nothing changes and there is still no error; other tenants' queues stay as they are |
| `Ingests.IngestQueue.FlushReady` | internal/ha/ingest.go:412-454 | Terminates, also through the break on a queue that does not shrink, and accepts nothing new; with no error, nothing that was due waits afterwards if and only if no proposed flush met a changed owner, and after a pass for everything nothing waits at all under exactly that condition |
| `Ingests.CancelledMoveReroutes` | internal/ha/ingest.go:151-160 | The input where it fails: a freeze is refused because a request is accepted, the move is cancelled and thaw raises the epoch; a flush proposed at the old epoch is answered with a changed route, changes nothing and is no error |
| `Backups.AtMostOneTask` | scripts/backup_automation.py:138-175 | With crashes at any step, lost responses and failed or torn writes, the server never has two tasks for one cycle, phase and retry, given that a definite rejection creates none |
| `Backups.RestartIsAccepted` | scripts/backup_automation.py:56-94 | Whatever a stopped worker left on disk passes its own validation |
| `Backups.EveryRunIsSafe` | scripts/backup_automation.py:177-230 | The invariant over disk, worker, tasks and submissions under way holds in every run |
| `BackupOutcomes.CycleIsProven` | scripts/backup_automation.py:195-219 | In every run, when a poll ends a cycle the server has held a succeeded object backup of that cycle, a verification of that very backup that proved it, and, if a drill was due, a restore that proved it |
| `BackupOutcomes.ListProvesCycle` | scripts/backup_automation.py:195-219 | If the server changes no ended task, its list shows all of them at that moment |
| `BackupOutcomes.PollIsExact` | scripts/backup_automation.py:183-219 | What a poll leads to, for every phase and result: waiting, a retry under the ended task's identity, an error that changes nothing, the next phase for the key just backed up, or the end of the cycle with its times set |
| `BackupOutcomes.CycleCompletes` | scripts/backup_automation.py:177-230 | From every safe state with an idle worker a cycle can run to its end with two tasks, or three if a drill is due |
| `BackupOutcomes.EveryRunIsFounded` | scripts/backup_automation.py:195-219 | In every run, what is on disk and in the worker's memory in the verify and drill phases stands on a task that was seen to succeed |
| `Backups.StepKeepsSafe` | scripts/backup_automation.py:138-230 | It is kept by every step of worker, server and failure |

## Left out

- Raft log replication, elections, snapshots and forwarding between peers: each group is a register.
- Journal, WAL, Parquet and garbage collection of the storage engine: assumed atomic and map-like.
- HTTP handlers, tracing, metrics, admin UI, query languages and their parsers.
- Failures of the object store in the middle of an ownership, catalog, ingest or graph operation, and
  marshalling errors: the operation is one step or does not happen.
- Unsupported actions of stale requests, unsupported cardinalities and impact directions: the requests
  are of types that cannot express them.
- Field ownership and merge rules of single fields, and label normalization: parameters.
- GraphMerges.MergeEffect: the content of edges that meet more than one other edge, and of an edge that moves
  twice, is only known by its ends; the target's content is the fold of the parameter that merges two entities.
- GraphReloads.CanonicalizeEntities: when two entities do share a source identity the merged entity and the
  remapping of edges to it are computed as in the code but not characterised; a consistent graph has none.
- Whether entity fields fit their field schemas is checked by the model as by the code but is no part of
  the constraints that histories keep: merging fields is a parameter.
- Switching the identity encoding in the middle of a history of commits: `Identities` treats it on its own.
  The signatures by which a request looks entities up come with the request.
- Reports of suppressed changes and affected identities, timestamps and versions.
- Source policies of a commit: a commit is what the policy lets through.
- The shortcut that skips kinds without composite unique fields when filling the validator's index.
- `GraphReference` leaves the order of error messages open: a commit is accepted or not.
- The outer level of maps that a storage copy clones as sharded maps: the subject of `ShardedMap`. The
  index maps of `GraphCommit` are directories of shared cells, copied under their impact flags.
- GraphCommits.Graph.ApplyBatch: replacements spelled otherwise than they are stored are excluded; what one
  commit with them does is stated at `Graph.Commit`.
- GraphCommits.Graph.Commit: on failure it says of the private copy only that readers of the published graph
  find theirs unchanged, because the caller discards the copy.
- Catalogs.EveryRunHasHistory: assumes that a new move's identity is new, because command identities are
  random.
- MigrationSafety.SingleOwner: coordinator messages come from the protocol's own coordinators; an operator
  is not assumed to send shard actions by hand.
- Transfers staged by older versions without per-part digests.
- Validity of tenant names and URL syntax of peers and shards.
- The entity partitions used by scans, and the cached order of entity identities by kind.
- Collisions of the joined cache key of adjacency orders, whose parts the model keeps apart.
- NeighborOrders.NeighborOrder.VisitNeighbors: charging a query budget per edge is left out.
- OrderedReads.FieldReads.VisitFiltered: keys that no range can read are skipped, as in the code, so a
  filter that accepts such a key does not have its bounds implied.
- Backups.AtMostOneTask: the worker is a step relation on values, because crashes fall between any two
  of its writes; its dictionary, file and clock are fields and parameters of the steps.
- The lock on the backup state directory: one worker per tenant and endpoint is assumed.
- Ingests.IngestQueue.FlushReady: new arrivals during a pass are not interleaved; each pass is proved on
  its own. The owner each flush meets is an arbitrary sequence of meetings.
- Ingests.RepeatedIdentity: the storage's own check for a replayed batch is not part of the model.
- Floating point: field numbers are real numbers, or no number at all.
