# A knowledge-graph service, modelled and proved

The repository keeps an architecture graph: entities and relationships written in transactional batches, an append-only
delta log, snapshots, a cached breadth-first neighbourhood read, an asynchronous search index, a pipeline that computes
deltas, an orchestrator that runs ingestors along a dependency graph, and analytics over the result. This project models
those parts in Dafny and proves what each is for, over every input, every run and every interleaving.

How the files fit together:

- `Records`, `EventStore`, `MutationLaws`, `MutationApi`: rows, log entries and mutations; the effect of one mutation, one
  batch and one run as functions; what that effect is, said of rows and log alone; and the classes `Store` and `Api`,
  whose methods update rows and log in place and are proved equal to those functions.
- `Replay`, `StateAt`, `SnapshotReads`, `SnapshotStore`: replaying the log over a state, what the state at an instant is,
  creating snapshots in three queries, restoring at an instant.
- `Neighborhood`, `GraphCache`, `ReadPath`, `StaleCache`, `OverlappedReads`: the depth-bounded search, the cache with its
  two invalidations, the service that reads through the cache and purges it after each commit, the gap its hooks leave,
  and the race between a slow read and the hooks of a commit.
- `DeltaCompute`, `DeltaLaws`, `SearchIndex`: the last pipeline stage, what it promises against the same store, and the
  indexer that follows the store.
- `Digraph`, `Tarjan`, `Health`, `BlastRadius`, `Retriever`: graph analytics and scoring, over exact reals.
- `TopoOrder`, `Dispatcher`: planning the ingestors and running them concurrently, as a step relation.
- `Sorting`, `Topics`, `TopicTable`, `TopicLaws`: segmentation of a namespace into wiki topics, its definition in numbers,
  and its laws.

The main operations are specified twice. Their methods are proved against functions that follow the code; those functions
are then proved to mean what the source promises, in rows, log entries, listed relationships and literal numbers, without
naming the functions.

Conventions. Floats are reals. Timestamps are an abstract ordered clock, and every theorem holds whatever the clock
does unless it says otherwise. A property value is its JSON text. Wherever the Go code ranges over a map or relies on
row order, the model chooses arbitrarily. The validators and the id recipes are function parameters (`Schema`), as are
the square root of the audit (`IsSqrt`), the projection to a search row, and the outcomes of remote calls. A transaction
is one atomic step, since the store has one connection; so is each query. Two preconditions state what the source relies on without
checking: relationship confidences lie between 0 and 1 (`BlastRadius`, `Retriever`; storage/schema/validate.go enforces
it on every write), and a neighbourhood never lists its origin among its other nodes (`Retriever`; the search in
storage/internal/graphdb/query.go:158-229 guarantees it).

Where the code does something other than its documentation or its obvious intent, the model follows the code, and a
theorem says exactly when the intent is met:

- A snapshot reads the log's cut, the entities and the relationships in three queries. It restores correctly at every
  later instant exactly when what committed in between is tolerable: nothing it holds was created past its cut, and what
  it holds is no newer than its instant unless overwritten by then (`SnapshotReads.ToleratedIff`). Under the usual clock
  the harmful commits are exactly those that change an entity before the entities are read, or a relationship before
  the relationships are (`SnapshotReads.HarmfulCommits`; `SnapshotStore.TornSnapshotRun` is a run with one). Read in one
  piece, a snapshot is safe exactly when no id's last entry is newer than its instant (`SnapshotReads.SnapshotSafeIff`;
  `SnapshotStore.EarlySnapshotRun` is a run where one is). In both runs a restore holds an entity twice.
- A relationship update invalidates only its new endpoints. Committing one keeps every coherent cache coherent exactly
  when the old edge was inactive or both old endpoints' one-step surroundings meet the new endpoints
  (`StaleCache.MoveSafeForCacheIff`), which holds whenever one endpoint is kept (`GraphCache.SharedEndpointIsSafe`).
  `StaleCache.StaleRun` is a run from the empty store that ends with a wrong answer in the cache.
- A search fills the cache some time after it read the store, and the hooks of a commit may run in between. A step keeps
  every cached value right, or about to be dropped by a hook still to run, exactly when it is no late fill
  (`OverlappedReads.StepKeepsCoveredIff`); once no hook is left, a cached neighbourhood is wrong exactly when a late fill
  spoiled it and nothing repaired it since (`OverlappedReads.WrongWhenQuietIff`; `OverlappedReads.LateFillRun` is such a
  run). A fill is in time when no hook that mentions its answer ran since the search (`OverlappedReads.FoundThenFilled`).
- The retriever's comment promises to back off one level of depth while too many nodes remain. Scoring already truncates
  to the cap, so the back-off never happens: the applied depth is the requested one (`Retriever.Retrieve`).
- The wiki's `MaxTopics` can be exceeded by one topic, misc, exactly when more directories than the cap are left after
  folding and misc is not among those the cap keeps (`TopicLaws.TopicsAreCounted`; `TopicLaws.CapIsExceeded` is a listing
  where it is).
- The pipeline's property comparison ignores the two timing keys but compares sizes first. Against a mapped proposal,
  which always carries both keys, it misses no real change, and it is wrong exactly on rows that lack a timing key and
  agree otherwise: those are emitted in vain (`DeltaCompute.EntityChangedIff`, `DeltaLaws.RowWithoutTimingIsEmitted`).
- A recomputed delta is empty exactly when the two ends of every relationship will live in one namespace of the batch
  (`DeltaLaws.DeltaConvergesIff`; `DeltaLaws.TwoNamespacesNeverConverge` is a batch where they do not). Committing it
  still changes nothing unless some such relationship was not emitted the first time and differs in timing from the
  stored row (`DeltaLaws.RecommitIsSilentIff`; `DeltaLaws.MovedEndIsWrittenAgain` is such a run).
- The search index drops an enqueue when its queue is full and ignores failed calls. A drained index is wrong about an
  entity exactly when some step lost it while nothing else carried it and no later commit wrote it
  (`SearchIndex.WrongWhenDrainedIff`; `SearchIndex.FailedWriteForgets` is such a run).

## Model

| member | source | states |
|---|---|---|
| EventStore.ApplyOneKeepsInv | storage/internal/mutation/api.go:148-327 | every successful mutation of any kind keeps four facts together: each row is its id's last logged state (up to the deletion stamp), every entry continues its id's history, endpoints of stored edges exist, rows sit under their own ids |
| EventStore.RunKeepsInv | storage/internal/mutation/api.go:95-146 | those facts hold after every run of batches, whichever batches fail and whatever the clock does |
| EventStore.FailedBatchLeavesNoTrace | storage/internal/mutation/api.go:95-131 | a batch in which any mutation fails leaves rows and log exactly as they were |
| EventStore.PrefixExtendsLog | storage/internal/deltalog/log.go:48-79 | the log only grows at its end |
| EventStore.UnnamedRowStays | storage/internal/mutation/api.go:129-143 | an entity row that changes in a transaction is named by some result, so the post-commit hooks reach every changed entity |
| EventStore.EntityHistory | storage/internal/mutation/api.go:182-215 | in any disciplined log an entity is created by its first entry and only there, and consecutive entries chain: before-version equals the previous after-version, after-version is one higher |
| EventStore.RelHistory | storage/internal/mutation/api.go:248-275 | the same history for relationships |
| EventStore.RowsFollowLog | storage/internal/mutation/api.go:165-327 | over every run a row exists exactly when its id was logged, carries the last after-version, and a stored edge has both endpoints |
| MutationLaws.OneStep | storage/internal/mutation/api.go:148-327 | for each kind: exactly when the transaction goes on (valid, known ends, a supplied version equal to the stored one, a known target), which row is then written with which fields, version and stamps, the one log entry, nothing else touched, what the result reports, and otherwise which error |
| MutationLaws.BatchIsChain | storage/internal/mutation/api.go:95-131 | a transaction succeeds if and only if its mutations are accepted one after the other where they stand; it then ends in the only store and results such a chain allows, and otherwise in the error of the first one refused |
| MutationApi.Store.InsertEntity | storage/internal/graphdb/store.go:108-136 | inserts with defaulted version and lifecycle, or fails on a taken key and changes nothing |
| MutationApi.Store.UpdateEntity | storage/internal/graphdb/store.go:141-172 | overwrites exactly when the row still has the expected version |
| MutationApi.Store.SoftDeleteEntity | storage/internal/graphdb/store.go:177-196 | marks the row deleted, stamps it and raises its version, under the version check |
| MutationApi.Store.InsertRelationship | storage/internal/graphdb/store.go:214-235 | inserts with defaulted version, or fails on a taken key and changes nothing |
| MutationApi.Store.UpdateRelationship | storage/internal/graphdb/store.go:239-263 | overwrites exactly when the row still has the expected version and both endpoints are stored |
| MutationApi.Store.SoftDeleteRelationship | storage/internal/graphdb/store.go:267-282 | marks the row inactive, stamps it and raises its version, under the version check |
| MutationApi.Store.Append | storage/internal/deltalog/log.go:48-79 | adds one entry whose id is its position |
| MutationApi.Api.UpsertEntityRow | storage/internal/mutation/api.go:165-215 | refines the one-mutation specification: validation, defaults, creation, version conflict, no-change, update, with row and log written together |
| MutationApi.Api.UpsertRelRow | storage/internal/mutation/api.go:217-275 | the same for relationships, rejecting unknown endpoints |
| MutationApi.Api.SoftDeleteRow | storage/internal/mutation/api.go:277-301 | the same for soft deletion, with its two separate stamps |
| MutationApi.Api.DeleteRelRow | storage/internal/mutation/api.go:303-327 | the same for relationship deletion |
| MutationApi.Api.ApplyMutation | storage/internal/mutation/api.go:148-161 | dispatch on the kind refines the one-mutation specification; unknown kinds fail |
| MutationApi.Api.ApplyBatch | storage/internal/mutation/api.go:95-131 | a batch is all or nothing and keeps the run invariant; it succeeds exactly when its mutations are accepted in turn, ends in the rows, log and results of that chain, and otherwise changes nothing and reports the first refusal |
| Replay.ReplayIsLast | storage/internal/snapshot/store.go:280-331 | replaying log entries over a state gives, by id, the last logged state over the base, and never duplicates an id |
| Replay.LogRebuildsRows | storage/internal/snapshot/store.go:280-331 | the log is truth: after every run, replaying the whole log from nothing rebuilds exactly the rows, each id once, up to the deletion stamp |
| Replay.RestoreFromBase | storage/internal/snapshot/store.go:171-278 | replaying the later entries up to an instant over a base settled by then gives the state as of that instant |
| Replay.CutIsGreatest | storage/internal/snapshot/store.go:52-65 | the cut bounds every entry id no later than the instant and is one of them, unless it is 0 |
| Replay.TakenAfterEverything | storage/internal/snapshot/store.go:52-71 | an instant no earlier than all entries logged so far meets that condition |
| StateAt.AsOfIsStateAt | storage/internal/snapshot/store.go:171-331 | the promised state, entry by entry: no id twice, an entity or relationship is there exactly when some entry on it is no later than the instant, and as the last such entry left it |
| SnapshotReads.ToleratedIff | storage/internal/snapshot/store.go:52-115 | a snapshot whose three queries saw the log at three lengths restores correctly after every continuation and at every later instant if and only if what it saw is tolerable |
| SnapshotReads.HarmfulCommits | storage/internal/snapshot/store.go:52-115 | under the usual clock, exactly which commits between the queries do harm: entity changes before the entities are read, relationship changes before the relationships are read |
| SnapshotReads.CreationFails | storage/internal/snapshot/store.go:280-287 | holding an id created past the cut is always harmful, because the replay appends it again |
| SnapshotReads.AtOnceIff | storage/internal/snapshot/store.go:52-115 | with no commit in between, tolerable means that no id's last entry is newer than the instant |
| SnapshotReads.SnapshotSafeIff | storage/internal/snapshot/store.go:52-71 | so a snapshot read in one piece restores correctly for every continuation and every later instant if and only if no id's last entry is newer than the snapshot's instant |
| SnapshotStore.Restorer.ReplayOne | storage/internal/snapshot/store.go:280-331 | the in-place replay of one entry equals the replay function |
| SnapshotStore.ListEntities | storage/internal/snapshot/store.go:73-100 | lists each row once, whatever the order |
| SnapshotStore.ListRelationships | storage/internal/snapshot/store.go:102-125 | lists each row once, whatever the order |
| SnapshotStore.Snapshots.CreateSnapshot | storage/internal/snapshot/store.go:44-169 | three queries with any batches committed between them: stores the cut, the entities and the relationships each as of its own query, fails on a reused id; the new snapshot always restores correctly exactly when what it saw is tolerable |
| SnapshotStore.QueriesTake | storage/internal/snapshot/store.go:44-169 | the same of the runs: three queries with any batches between them leave one more snapshot, of their listings, cut at the largest entry id no later than the instant when the first one ran |
| SnapshotStore.Snapshots.NearestSnapshot | storage/internal/snapshot/store.go:171-210 | finds the newest snapshot no later than the instant, if any |
| SnapshotStore.Snapshots.FindCut | storage/internal/snapshot/store.go:52-65 | finds the largest entry id no later than the instant, 0 if there is none |
| SnapshotStore.Snapshots.ReplayLog | storage/internal/snapshot/store.go:212-275 | replays in place exactly the entries after the cut and no later than the instant |
| SnapshotStore.Snapshots.RestoreGraph | storage/internal/snapshot/store.go:171-278 | restores from a newest snapshot no later than the instant, or from nothing if there is none; when those were safely taken, the result holds exactly what the last entries up to the instant say, ids unique, whatever the other snapshots are |
| SnapshotStore.TimeTravel | storage/internal/snapshot/store.go:171-278 | over every run in which batches and the queries of any number of snapshots alternate, each finished snapshot tolerating what it saw, every restore, with or without a snapshot and whichever it starts from, holds each id once, as its last entry up to the instant left it |
| SnapshotStore.EarlySnapshotRun | storage/internal/snapshot/store.go:52-71 | a run from the empty store: create an entity, snapshot the rows at an earlier instant; every restore from the creation on holds that entity twice and is not the state as of then |
| SnapshotStore.TornSnapshotRun | storage/internal/snapshot/store.go:52-115 | a run from the empty store: the snapshot reads its cut, an entity is created, the snapshot reads the rows; whatever its instant, every restore from the creation on holds that entity twice |
| Neighborhood.WithinIsDistance | storage/internal/graphdb/query.go:158-229 | the level sets of the search are distance balls: a node is within k exactly when a route of at most k active edges leads to it |
| Neighborhood.FreshIsAnswer | storage/internal/graphdb/query.go:158-256 | the answer said of rows alone: the origin, the rows of exactly the other entities that at most so many active edges lead to in the asked direction, the rows of exactly the edges that leave a node fewer lead to |
| Neighborhood.EdgesForNode | storage/internal/graphdb/query.go:231-256 | returns exactly the active edges expandable from the node in the direction |
| Neighborhood.AddEdge | storage/internal/graphdb/query.go:185-222 | skipping an edge already seen loses nothing: its far end is already known |
| Neighborhood.LevelDone | storage/internal/graphdb/query.go:178-226 | expanding only the frontier completes the next level, nodes and edges |
| Neighborhood.SearchEnds | storage/internal/graphdb/query.go:178-226 | an empty frontier means all further levels are the same |
| GraphCache.KeysAreInjective | storage/internal/graphdb/cache.go:147-149 | two queries share a cache key only if they are the same query, even when ids contain the separator |
| GraphCache.Locality | storage/internal/graphdb/query.go:158-229 | a neighbourhood is determined by the edges at its inner nodes and its members' rows |
| GraphCache.EntityWriteIsLocal | storage/internal/graphdb/cache.go:94-117 | writing an entity cannot change a neighbourhood that does not contain it |
| GraphCache.RelWriteIsLocal | storage/internal/graphdb/cache.go:122-144 | writing a relationship cannot change a neighbourhood that contains neither endpoint nor its old edge |
| GraphCache.UpdateSafeIff | storage/internal/mutation/api.go:260-275 | after a relationship update, every answer that survives the invalidation of the new endpoints is fresh if and only if the old edge was inactive or both old endpoints' one-step surroundings meet a new endpoint |
| GraphCache.UnsafeUpdateLeavesStale | storage/internal/mutation/api.go:260-275 | otherwise the depth-one neighbourhood of an old endpoint mentions no new endpoint, so the hooks spare it, and yet its fresh answer changes |
| GraphCache.SharedEndpointIsSafe | storage/internal/mutation/api.go:260-275 | an update that keeps an endpoint, as when the id determines the endpoints, is safe |
| GraphCache.PrefixIsLocal | storage/internal/mutation/api.go:129-143 | through a whole transaction an answer that every hook spares stays the fresh one |
| GraphCache.CommitKeepsCoherent | storage/internal/mutation/api.go:129-143 | a commit followed by its hooks keeps every remaining cache entry equal to an uncached read |
| GraphCache.Cache.Scan | storage/internal/graphdb/cache.go:98-110 | finds the id exactly when origin or a node of the cached answer has it |
| GraphCache.Cache.InvalidateEntity | storage/internal/graphdb/cache.go:94-117 | drops the entity and exactly the neighbourhoods that contain it |
| GraphCache.Cache.InvalidateRelationship | storage/internal/graphdb/cache.go:122-144 | drops exactly the neighbourhoods that contain either endpoint |
| ReadPath.RunKeepsCoherent | storage/internal/graphdb/query.go:158-229 | over every run of reads, expiries and batches with safe edge moves, every cached entity and neighbourhood equals what an uncached read would return now |
| StaleCache.MoveLeavesStaleEntry | storage/internal/mutation/api.go:129-143 | from any reachable store: after reading an old end's one-step neighbourhood, committing the move leaves that entry cached, different from an uncached read, and the cache incoherent |
| StaleCache.MoveSafeForCacheIff | storage/internal/mutation/api.go:129-143 | committing a relationship update and running its hooks keeps every coherent cache coherent if and only if the update is safe |
| StaleCache.StaleRun | storage/internal/mutation/api.go:129-143 | a run from the empty store whose cache ends up incoherent |
| OverlappedReads.AnswerStaysCovered | storage/internal/mutation/api.go:129-143 | an answer that is right, cached or still on its way to the cache, stays right or is mentioned by a hook still to run, until such a hook runs |
| OverlappedReads.StepKeepsCoveredIff | storage/internal/graphdb/cache.go:44-144 | with safely moving commits, single hooks, fills and expiries in any order, a step keeps every cached value right or about to be dropped if and only if it is no late fill |
| OverlappedReads.WrongAfterStepIff | storage/internal/graphdb/cache.go:61-144 | per entry: wrong for good after a step exactly when the step is a late fill of it, or it was wrong and the step does not repair it |
| OverlappedReads.WrongWhenQuietIff | storage/internal/graphdb/query.go:158-229 | at the end of any run that moves edges safely, with no hook left, a cached neighbourhood differs from an uncached read if and only if a late fill spoiled it and no later step repaired it |
| OverlappedReads.TimelyRunIsHonest | storage/internal/graphdb/query.go:158-229 | a safely moving run without late fills ends with every cached value right or about to be dropped, and coherent when no hook is left |
| OverlappedReads.FoundThenFilled | storage/internal/graphdb/query.go:158-229 | an answer that was right when found is no late fill, whatever committed since, if no hook that mentions it ran between the search and the fill |
| OverlappedReads.LateFillRun | storage/internal/graphdb/query.go:158-229 | a run from the empty store, for every depth and direction: search, deletion, all hooks, fill; no hook is left and the cache answers wrongly |
| ReadPath.Service.ApplyBatch | storage/internal/mutation/api.go:95-146 | commits, then drops exactly the cached entries the results name or mention; coherence survives when edges move safely; the step is the one of the runs |
| ReadPath.Service.GetEntity | storage/internal/graphdb/query.go:16-35 | returns the stored row through the cache, leaves exactly that row cached in addition, and keeps coherence |
| ReadPath.Service.ExpandLevel | storage/internal/graphdb/query.go:178-226 | one level of the loop adds exactly the stored neighbours and the edges of the frontier, and the next frontier is what is new |
| ReadPath.Service.Neighborhood | storage/internal/graphdb/query.go:158-229 | for any requested depth, cut to 0 to 5: cached or not, the nodes are exactly those that at most that many edges lead to, the edges exactly those leaving a nearer node, all with their stored rows; none when the origin is not stored; the answer is cached and no other |
| DeltaCompute.MapsEqual | pipeline/internal/pipeline/stage6_delta.go:209-232 | against a map with both timing keys: true exactly when the other has them too and agrees on everything else |
| DeltaCompute.ComparisonIsExactIff | pipeline/internal/pipeline/stage6_delta.go:209-232 | that meaning of the size check and key scan, for all maps |
| DeltaCompute.MappedCarryTiming | pipeline/internal/pipeline/stage6_delta.go:104-158 | mapped properties always carry both timing keys, so every call meets that case |
| DeltaCompute.EntityChangedIff | pipeline/internal/pipeline/stage6_delta.go:183-195 | a stored entity is reported changed exactly when it differs in substance from the mapped one or lacks a timing key: no real change is missed |
| DeltaCompute.RelChangedIff | pipeline/internal/pipeline/stage6_delta.go:197-207 | the same for relationships |
| DeltaLaws.RowWithoutTimingIsEmitted | pipeline/internal/pipeline/stage6_delta.go:209-232 | a run after which a row lacking a timing key, but otherwise what the batch says, is emitted |
| DeltaCompute.HasEntityChanged | pipeline/internal/pipeline/stage6_delta.go:183-195 | against a proposal with both timing keys: false exactly when the two rows are equal but for bookkeeping and timing and the stored one has those keys |
| DeltaCompute.HasRelationshipChanged | pipeline/internal/pipeline/stage6_delta.go:197-207 | the same for relationships |
| DeltaCompute.EntityMutationIs | pipeline/internal/pipeline/stage6_delta.go:44-142 | in the batch's own fields: an entity is left alone exactly when the known row is active, ACTIVE, has its kind (a schema's renamed), sub-type, name, namespace, confidence and, but for the timing values, exactly its own properties and provenance; otherwise one upsert with all of these is proposed at the known version |
| DeltaCompute.RelMutationIs | pipeline/internal/pipeline/stage6_delta.go:73-158 | the same for relationships, with their ends and two renamed kinds |
| DeltaCompute.SmallNamespacesAreWhole | storage/internal/graphdb/query.go:86-133 | a namespace of at most 5000 active entities and 20000 relationships is listed whole |
| DeltaCompute.FetchKnown | pipeline/internal/pipeline/stage6_delta.go:24-42 | gathers exactly the rows listed for the batch's namespaces, tolerates unknown namespaces, fails on any other error |
| DeltaCompute.Stage6DeltaCompute | pipeline/internal/pipeline/stage6_delta.go:14-102 | fails exactly when the fetch of some entity's namespace fails; otherwise proposes, entities first and in batch order, exactly the items the gathered rows do not already have, each with the batch's own fields |
| DeltaLaws.FetchesTellTheStore | storage/internal/graphdb/query.go:86-133 | faithful listings make the gathered rows true of the store, and complete for its namespaces when none exceeds its row cap |
| DeltaLaws.EntityHalf | pipeline/internal/pipeline/stage6_delta.go:47-71 | the entity mutations all apply, settle every entity of the batch and touch no other row |
| DeltaLaws.DeltaAppliesIff | pipeline/internal/pipeline/stage6_delta.go:14-102 | for a valid batch without repeated ids the delta commits if and only if every relationship ends at stored entities or entities of the batch, so no version conflict arises; every row of the batch then has the batch's own fields, the emitted ones exactly its properties, new ones version 1, and nothing else changed |
| DeltaLaws.SharedAsForeseen | storage/internal/graphdb/query.go:111-133 | whether a relationship will be listed in a namespace of the batch is decided by the batch's namespaces and the rows stored before |
| DeltaLaws.DeltaConvergesIff | pipeline/internal/pipeline/stage6_delta.go:14-102 | computed again after the commit, at any later time and under the row caps, the delta of the same batch is empty if and only if both ends of every relationship will live in one namespace of the batch, a condition on batch and store before the call |
| DeltaLaws.TwoNamespacesNeverConverge | pipeline/internal/pipeline/stage6_delta.go:14-102 | two services in two namespaces and a call between them: the batch commits, the listings are faithful and small, the second delta is not empty |
| DeltaLaws.RecommitIsSilentIff | pipeline/internal/pipeline/stage6_delta.go:14-102 | committing the recomputed delta leaves rows and log unchanged if and only if every relationship will share a namespace, was emitted the first time, or already had its very properties |
| DeltaLaws.MovedEndIsWrittenAgain | pipeline/internal/pipeline/stage6_delta.go:14-102 | a run from the empty store with faithful, small listings: a later run moves one end of a call to another namespace and brings only new timing; its delta, computed and committed a second time, writes the call again |
| SearchIndex.Indexer.Enqueue | storage/internal/search/index.go:70-76 | adds the id at the end, or drops it exactly when the queue is full |
| SearchIndex.Indexer.IndexEntity | storage/internal/search/index.go:78-122 | on success the id's search row is the projection of its entity row, or gone with it; nothing else changes |
| SearchIndex.Indexer.Drain | storage/internal/search/index.go:50-56 | empties the queue; every id ends as its last successful call left it, right for the rows of that moment, and ids without one keep their search row |
| SearchIndex.RunKeepsSafe | storage/internal/search/index.go:41-122 | in every interleaving of commits, hooks and worker steps, an entity that is right or on its way, and that no later step drops or fails, stays so, whatever is lost of others |
| SearchIndex.CommitMakesSafe | storage/internal/mutation/api.go:129-143 | a commit that writes an entity puts it on its way again, whatever was lost before |
| SearchIndex.DrainedMeansAgreement | storage/internal/search/index.go:41-122 | with nothing in flight such an entity's search row is right |
| SearchIndex.NeverStuck | storage/internal/search/index.go:41-62 | a live worker has something to do exactly while something is in flight |
| SearchIndex.IndexCatchesUp | storage/internal/search/index.go:41-122 | once commits cease, a loss-free run takes no more steps than the backlog and ends with the search row of every such entity right |
| SearchIndex.ForgetsIff | storage/internal/search/index.go:41-122 | exactly which steps leave an entity wrong with nothing in flight: a dropped enqueue, a failed call or the write of an outdated row, with no second copy on its way |
| SearchIndex.FailedWriteForgets | storage/internal/search/index.go:46-49 | a run from empty that ends drained and without the search row of a stored entity |
| SearchIndex.ForgottenStays | storage/internal/search/index.go:41-122 | such an entity stays wrong through a step exactly when the step is not a commit that writes it |
| SearchIndex.WrongWhenDrainedIff | storage/internal/search/index.go:41-122 | at the drained end of any run an entity's search row is wrong if and only if some step forgot it and no later commit wrote it |
| Tarjan.TarjanScc | serving/internal/analytics/tarjan.go:11-86 | for every adjacency map and visiting order the components partition all sources and sinks, are exactly the classes of mutual reachability, and each comes after every other component it reaches |
| Tarjan.Finder.StrongConnect | serving/internal/analytics/tarjan.go:29-76 | one call visits everything reachable and new, keeps the invariant of indices, stack and emitted components, and leaves a lowlink that is witnessed on the stack and bounds every edge going below it |
| Tarjan.Finder.PopComponent | serving/internal/analytics/tarjan.go:60-74 | the pop loop takes exactly v and everything above it off the stack |
| Tarjan.TopIsMutual | serving/internal/analytics/tarjan.go:58-75 | when lowlink equals index, everything from v's slot upward is mutually reachable with v |
| Tarjan.SharedComponent | serving/internal/analytics/tarjan.go:11-86 | two nodes share a component exactly when each reaches the other |
| Digraph.PathsAreEntries | serving/internal/analytics/tarjan.go:42-56 | a path is a list whose every step is an entry of the adjacency map |
| Tarjan.ComponentsAreDetermined | serving/internal/analytics/tarjan.go:77-86 | any two results hold the same components up to order |
| Health.BuildAdjacency | serving/internal/analytics/health.go:51-54 | the adjacency map of the listed edges |
| Health.AdjacencyEdges | serving/internal/analytics/health.go:51-54 | its edges are exactly the listed relationships |
| Health.ContainsSelfLoop | serving/internal/analytics/health.go:178-185 | found exactly when the node has an edge to itself |
| Health.CyclicComponent | serving/internal/analytics/health.go:62-68 | a member of a component lies on a cycle exactly when the component has two members or a self-loop |
| Health.CycleSmells | serving/internal/analytics/health.go:62-85 | a node is reported in a circular dependency if and only if it lies on a directed cycle, and in at most one |
| Health.CountDegrees | serving/internal/analytics/health.go:89-93 | the counters hold each id's number of relationship ends |
| Health.DegreeIs | serving/internal/analytics/health.go:89-93 | a degree is the number of relationships that start at the id plus the number that end at it |
| Health.SumDegrees | serving/internal/analytics/health.go:94-101 | the accumulators are the count, sum and sum of squares of the entity degrees |
| Health.Threshold | serving/internal/analytics/health.go:102-109 | mean plus four sigma of the entity degrees |
| Health.SupernodeSmells | serving/internal/analytics/health.go:87-124 | reports, in order, exactly the entities above mean plus four sigma and above three, never among fewer than four |
| Health.SupernodesStandOut | serving/internal/analytics/health.go:87-124 | in numbers: reported are exactly the entities, among four or more, whose degree exceeds three and the mean plus four times the root of the mean square less the squared mean |
| Health.SupernodeBound | serving/internal/analytics/health.go:102-121 | k supernodes among n entities force 17k < n |
| Health.HubsAreReported | serving/internal/analytics/health.go:87-124 | the bound is sharp for every k: a listing of 17k + 1 entities in which k hubs are reported |
| Health.GatherAccess | serving/internal/analytics/health.go:126-142 | under each table exactly the listed services that read or write it |
| Health.IsAccessIff | serving/internal/analytics/health.go:133-141 | counted is exactly a READS_FROM or WRITES_TO relationship whose source the listing last lists as a SERVICE |
| Health.TableSmell | serving/internal/analytics/health.go:143-172 | a table is reported only when two different services access it, and then with each of them once |
| Health.SharedDatabaseSmells | serving/internal/analytics/health.go:126-173 | a table is reported if and only if two different services access it, and then once, whatever the iteration order |
| Health.Audit | serving/internal/analytics/health.go:37-176 | all three rules in one report: cycles exact, supernodes exact in numbers and none below 18 entities, shared tables exact |
| BlastRadius.CalculateBlastRadius | serving/internal/analytics/impact.go:51-133 | ends on every finite graph; for a requested depth of 1 to 5, and for 5 otherwise: fails exactly when it must expand an unknown id; else the report is exact at that depth, sorted by falling probability, and the entries of one node differ in probability, the more probable no less deep |
| BlastRadius.ReportedIsBest | serving/internal/analytics/impact.go:51-133 | a node is reported exactly when some inbound walk within the depth has product above 0.10, and its largest reported probability is the best such product |
| BlastRadius.ProductStep | serving/internal/analytics/impact.go:105-114 | each edge costs its confidence times 0.95, 0.80, 0.70, 0.50 or 0.40 by kind; the empty walk is certain |
| BlastRadius.QualifiesIff | serving/internal/analytics/impact.go:77-119 | a walk counts exactly when each edge is listed and leads into where the walk stands, it is short enough, and its product exceeds 0.10 |
| BlastRadius.ListedAtDepthIff | serving/internal/analytics/impact.go:77-99 | a node is listed at a depth exactly when some walk of that length beats every shorter one, so repeated listings are exactly the improvements |
| BlastRadius.SkipKeepsInv | serving/internal/analytics/impact.go:77-79 | skipping a dominated frame is sound, because first-in-first-out order makes the dominating visit no deeper |
| BlastRadius.ExpandKeepsInv | serving/internal/analytics/impact.go:80-119 | expanding the head frame keeps every qualifying walk accounted for |
| BlastRadius.AllWalksDone | serving/internal/analytics/impact.go:70-120 | with the queue empty every qualifying walk is dominated by an expanded frame |
| BlastRadius.PopLowersBudget | serving/internal/analytics/impact.go:70-120 | the sum over frames of (in-degree bound + 1) to the remaining depth falls at each pop, on cyclic graphs too |
| BlastRadius.PushCallers | serving/internal/analytics/impact.go:105-119 | pushes a frame for every caller whose impact stays above the threshold |
| Retriever.RelaxEdge | serving/internal/retriever/retriever.go:105-124 | relaxing both directions of an edge in place keeps every score real, and reports a change exactly when one happened |
| Retriever.Propagate | serving/internal/retriever/retriever.go:91-129 | the origin stays at 1, every positive score is the product along a real walk, every score is at least the best product over six hops, and the best over all walks if the loop settled early |
| Retriever.PassExtends | serving/internal/retriever/retriever.go:103-129 | each full pass extends the guarantee by one hop |
| Retriever.FixpointIsBest | serving/internal/retriever/retriever.go:126-128 | a pass that changes nothing proves the scores best over walks of any length |
| Retriever.HopCosts | serving/internal/retriever/retriever.go:20-40 | each hop, either way, costs the weight of its kind times its confidence; standing still costs nothing |
| Retriever.CutToCap | serving/internal/retriever/retriever.go:147-153 | truncates to the cap and keeps exactly the survivors' ids |
| Retriever.ScoreAndPrune | serving/internal/retriever/retriever.go:91-173 | the subgraph holds the best candidates up to the cap in falling order, in the list's order exactly the edges both of whose ends are the origin or a kept node, and true statistics |
| Retriever.KeptScoresAreReal | serving/internal/retriever/retriever.go:131-145 | every kept node scores between 0.15 and 1 and owes its score to a walk from the origin |
| Retriever.StrongNodesSurvive | serving/internal/retriever/retriever.go:131-153 | a node that a walk of at most six edges supports at 0.15 or more is kept, unless the cap of 200 is filled by nodes at least as good |
| Retriever.Retrieve | serving/internal/retriever/retriever.go:66-89 | answers for the requested depth cut to 1 to 5 or fails with the fetch; the depth back-off never happens |
| TopoOrder.TopoSort | ingestion/internal/orchestrator/runner.go:299-339 | succeeds if and only if every dependency is registered and the graph has no cycle; the order is then a permutation with each dependency strictly first, and each error names a real fault |
| TopoOrder.DependencyMapIs | ingestion/internal/orchestrator/runner.go:299-306 | the graph planned is that of the registrations, the last one of an id winning |
| TopoOrder.Planner.Visit | ingestion/internal/orchestrator/runner.go:307-330 | the three-colour search keeps the placed nodes in dependency order and reports only real cycles or missing dependencies |
| TopoOrder.PlannedMeansAcyclic | ingestion/internal/orchestrator/runner.go:299-339 | an order with dependencies first exists only for an acyclic, closed graph |
| Dispatcher.ScanDepsSatisfied | ingestion/internal/orchestrator/runner.go:341-353 | true exactly when every dependency is done and not failed |
| Dispatcher.ScanAnyDepFailed | ingestion/internal/orchestrator/runner.go:355-362 | true exactly when some dependency is done and failed |
| Dispatcher.VerdictRule | ingestion/internal/orchestrator/runner.go:78-151 | the verdict gives each ingestor failed if some dependency's verdict is failed, and its own outcome if none is |
| Dispatcher.RunKeepsInv | ingestion/internal/orchestrator/runner.go:78-151 | every reachable state of every interleaving keeps the invariant of places, recorded statuses, wake-ups and the cap |
| Dispatcher.RunIsSafe | ingestion/internal/orchestrator/runner.go:78-151 | never more at work than the configured concurrency, if one is configured, and a started ingestor's dependencies all ended non-failed |
| Dispatcher.StartsIffSlotFree | ingestion/internal/orchestrator/runner.go:78-151 | in every reachable state a queued worker can start if and only if no concurrency is configured or fewer than that many are at work |
| Dispatcher.NeverStuck | ingestion/internal/orchestrator/runner.go:78-151 | no reachable state is stuck before the run is over, so no wake-up is lost |
| Dispatcher.StepLowersMeasure | ingestion/internal/orchestrator/runner.go:78-151 | every step of dispatcher or worker lowers one explicit measure |
| Dispatcher.RunsAreBounded | ingestion/internal/orchestrator/runner.go:78-151 | so no interleaving runs longer than the initial measure |
| Dispatcher.MaximalRunsAgree | ingestion/internal/orchestrator/runner.go:78-151 | confluence: every run that cannot go on is over and recorded the same statuses |
| Sorting.Sort | serving/internal/wiki/topics.go:126-135 | a sorted permutation |
| Sorting.SortedIsUnique | serving/internal/wiki/topics.go:126-135 | without ties the sorted arrangement is the only one |
| Topics.FillBuckets | serving/internal/wiki/topics.go:63-73 | buckets hold exactly the ids of each directory, and the last entity of an id gives its directory; nil entities are skipped |
| Topics.CountLinks | serving/internal/wiki/topics.go:75-89 | counts exactly the relationships between two different known directories, both ways round |
| Topics.BestLargeNeighbor | serving/internal/wiki/topics.go:148-159 | whatever the iteration order, the eligible directory with most links, first by name among equals |
| Topics.MergeBucket | serving/internal/wiki/topics.go:161-170 | moves one bucket's ids behind another's, removes it, and tells each moved id its new directory |
| Topics.SortedKeysBySize | serving/internal/wiki/topics.go:174-186 | all keys once, larger buckets first, then by name (the comment in the source says smallest first; the code sorts largest first) |
| Topics.FoldSmall | serving/internal/wiki/topics.go:91-102 | every directory ends where the listing says it belongs: itself if large or misc, else its best neighbour, else misc |
| Topics.CapTopics | serving/internal/wiki/topics.go:104-113 | directories ranked past the cap end in misc, all others stay |
| Topics.Materialize | serving/internal/wiki/topics.go:115-135 | one topic per place, ids and topics in the promised order |
| Topics.Segment | serving/internal/wiki/topics.go:57-137 | the table of contents is a segmentation of the listing: one topic per place, the ids placed there, in the promised order |
| TopicTable.SegmentationTabulates | serving/internal/wiki/topics.go:55-159 | in numbers, for every listing and options (3 and 25 by default): where each directory goes by its size and its number of relationships to the large ones, which places the cap keeps, and what each topic holds, counted by position, in order |
| TopicLaws.SegmentationIsDetermined | serving/internal/wiki/topics.go:55-137 | there is only one segmentation of a listing, so map iteration order cannot show |
| TopicLaws.TopicsPartitionIds | serving/internal/wiki/topics.go:57-137 | the topics together hold every entity id as often as the listing does |
| TopicLaws.ListedOnceLandsOnce | serving/internal/wiki/topics.go:57-137 | an id listed once is in exactly one topic, once |
| TopicLaws.TopicsAreLarge | serving/internal/wiki/topics.go:91-102 | every topic but misc has at least `MinTopicSize` members |
| TopicLaws.TopicsAreOrdered | serving/internal/wiki/topics.go:126-135 | sizes never rise, and misc comes last |
| TopicLaws.TopicsAreCounted | serving/internal/wiki/topics.go:104-113 | the exact number of topics: at most `MaxTopics` + 1, and that many exactly when more directories than the cap are left after folding and misc is not among those the cap keeps |
| TopicLaws.CapIsExceeded | serving/internal/wiki/topics.go:104-113 | two large directories under a cap of one yield two topics |

## Left out

- SQL, SQLite, write-ahead logging, gzip, JSON encoding and SHA-256: tables are maps and sequences, a transaction is one step, ids come from abstract recipes.
- Timestamp text: instants are totally ordered values, so the order of RFC 3339 strings is not modelled.
- Floating-point rounding: arithmetic is over reals, and the square root is any exact one.
- Schema validators: any predicate; their individual rules would add only single-function members.
- In-place updates of the caller's request structs by the mutation handlers: entities are values, so a caller seeing its own struct change is not captured.
- Order of result slices: neighbourhoods are maps by id, listings are taken in any order, since the code fixes none that the properties need.
- Metrics summaries injected into entities on read, `GetEntityByName`, `GetRelationship` and the unused subgraph layer of the cache.
- Cache expiry times and the cache's lock: an entry may vanish at any moment, and each cache operation is one step.
- Restores that overlap commits: a restore reads the snapshot table and the log in one step.
- The queries inside one search: `ReadPath` runs a search in one step; in `OverlappedReads` its answer is arbitrary, which covers every interleaving but does not say which answers a torn search can give.
- The queries `ORDER BY canonical_name` of the namespace listings: which rows a capped listing keeps is left open.
- The text, severity and display names of smells: only their kinds and node ids are modelled.
- `runOne` and the ledger of the orchestrator: an ingestor's own outcome is a parameter of the plan; how it is produced is not modelled.
- Visiting order of `topoOrder` (sorted by name): the theorem holds for every visiting order, so the sort adds nothing.
- Summary counts and the retention side of snapshots: only the restored state is modelled.
- BlastRadius.CalculateBlastRadius: how often a node repeats at one depth is left open, because it depends on the order in which the service returns edges.
- `dirKeyOf`, `slug` and `humanize` of the wiki: a directory key is part of the entity, non-empty as the code guarantees; titles and slugs are text.
- Search queries over the index and the extraction of search columns from properties: a search row is any projection of the entity row.
- Restarting the indexer: the queue lives in memory and is lost with the process; runs start from an agreeing index.
- Process signals, HTTP, the command line, dashboards, language ingestors and prose generation.
