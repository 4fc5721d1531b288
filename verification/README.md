# Wallfacer, modelled in Dafny

A model of the parts of Wallfacer where several pieces have to agree over time, and
proofs of what they promise together. `dafny verify dfyconfig.toml` checks it all.

**Spec comments** (`SpecComments`, `CommentOps`, `CommentStores`, `StoreRefinement`, `LastPuts`,
`StoreInterleaving`, `CommitViews`, `ReplaceInterleaving`, `CommentRelays`, `Registries`,
`CommentServices`, `Coordination`, `Convergence`, `SyncCoverage`, `SplitCoordination`,
`SplitConvergence`, `SplitRuns`). Many wallfacer processes connect to one coordinator, which
decides every comment operation, stores the thread and pushes it to all instances of the
tenant that serve the repository; each process keeps a cache. The central result is
`SyncCoverage.CacheConvergence`: in every state that dials, joins, manifest changes,
operations, syncs, failed queries, deliveries, dropped sockets and reconnects can reach,
draining the queue of a live connection into its relay makes the cache equal the store.

**Flows** (`ParallelGroups`, `FlowEngine`): grouping steps into connected components and
running the groups, for every interleaving within a group.

**The spec and task graph** (`GraphTypes`, `DepGraph`, `GraphLaws`, `ArchivedView`,
`CriticalPath`, `Reconstruction`): construction, filtering of archived entries, and the longest dependency chain.

**The .env file** (`EnvFile`, `EnvUpdate`, `EnvLines`, `EnvLaws`, `EnvRewrites`): the line parser and the in-place
editor as a lens.

**Host agents** (`Executor`, `AgentLifecycle`): the compare-and-swap state machine, the
agent budget and the process table under racing Launch, Kill and Wait.

**Agent sessions** (`SessionManager`, `Migration`, `LineReader`): the thread manifest with
its archive cascades, crash-safe migration, and the bounded reader of the message log.

**The file index** (`FileIndex`): the cache that serves stale lists and refreshes in the
background.

## Reading the model

- Ids that the source mints (threads, comments) are numbers in minting order, and 0 is the
  empty id. Times are numbers and come in as parameters, as do minted ids, the answers of the
  disk and the clock, query failures, and the outcomes of agents and processes.
- Concurrency is a state machine whose actions are the source's critical sections. `Apply`
  (decide, store, fan out) and each per-repository step of `SyncTo` (query, send) are atomic in
  `Coordination`. The code holds no lock across them, so `SplitCoordination` takes both apart,
  over the Postgres tables and query by query, and `SplitConvergence` says exactly when the
  parts still leave a cache right. `StoreInterleaving` and `ReplaceInterleaving` take apart the
  loads, the edit and the put of an operation against each store.
- In `ReplaceInterleaving` a comment slice is a backing array and a length, as in the source: a
  reply appends in place when the array has room, and else to a new array, whose capacity is a
  parameter.
- Frames of one connection arrive in order; a socket can fail at any time and take its queue
  with it.
- A text is a sequence of characters; where the source works on bytes the argument is the same.

## Where the code and its description differ

- An outdated comment thread is called a terminal verdict
  (internal/coordinator/comments.go:157-162), but `setResolved` accepts it like any other. It
  stays outdated exactly while no member of its tenant resolves or reopens it
  (`CommentOps.OutdatedStaysIff`, `CommentOps.OutdatedOverRuns`).
- Replies of two concurrent operations both survive in the Postgres store, as its merge rule
  intends, and not in the in-memory store (`ReplaceInterleaving.ConcurrentReplyIsLost`). There
  the copies share backing arrays, so a comment survives exactly when the copy put last covers a
  cell to which it was the last to be written (`ReplaceInterleaving.CommentSurvivesIff`); a reply
  put last can be gone and an earlier put one stand in its place
  (`ReplaceInterleaving.LastPutLosesItsReplyFromTheStart`). A put shows what its operation loaded
  and minted exactly when no other append fell on its cells (`ReplaceInterleaving.PutShowsIff`).
  Under both rules the thread row itself is the last writer's, and a resolve survives a later put
  exactly as `StoreInterleaving.ResolvedIff` says.
- An operation fans out the copy it committed, and the merge of the Postgres store may hold more
  than the copy. The fan-out leaves the cache right exactly when each comment that was stored
  for the thread before the commit had been loaded by the operation, and no later commit changed
  the thread (`SplitConvergence.FanOutAgreesIff`). Two replies that both load before either
  commits leave a cache without the first until the next sync
  (`SplitRuns.StaleCopyIsFannedOut`).
- A sync reads thread rows, then comments, and then sends. It leaves the cache right exactly when
  the rows it read and the comments it read are the current ones, though the two queries may have
  seen different tables (`SplitConvergence.SendAgreesIff`). Along every run in which no commit
  falls between the parts of another operation or sync on the same threads the caches converge
  (`SplitConvergence.SplitCacheConvergence`).
- The walk of the critical path is guarded against cycles, but the loop that rebuilds the path
  afterwards is not. From a start that reaches no cycle it ends with a longest chain; from one
  that reaches no sink it never ends; in between the same edges end or do not end by the order
  in which they are listed (`Reconstruction.LoopOutcome`, `Reconstruction.EdgeOrderDecides`).
- `export` lines are read by the .env parser and invisible to the editor, and a value with a
  newline in it is written as several lines, which the reader takes for lines of their own.
  `EnvLaws.ReadAfterUpdate` gives the value of every key after every update of managed keys;
  `EnvLaws.SetReadsBack`, `EnvLaws.ClearRemoves` and `EnvLaws.UntouchedKeepsIff` say exactly
  when it is the expected one, and `EnvRewrites.UpdateIsIdempotentIff` when a second update
  changes nothing.
- A `Wait` that ends in an error other than an exit status should leave a terminal state. It
  does exactly when no Kill found the agent still running (`AgentLifecycle.WaitEndsIn`).
- The cascade flag of a session is documented as cleared by a manual unarchive
  (internal/agentsession/sessions.go:26-29); the code keeps it, so that later cascades leave the
  thread alone (`SessionManager.UserChoiceStays`). A later manual archive lasts exactly as
  `SessionManager.ArchivedThroughCascades` says.

## Model

| member | source | states |
|---|---|---|
| SpecComments.Root | internal/speccomment/types.go:100-107 | the root is a comment of the thread without a parent, and there is none only when every comment has one |
| CommentOps.AcceptedThread | internal/coordinator/comments.go:39-185 | an accepted operation starts a thread under its fresh id or edits one of the caller's own tenant, keeping its identity, with at most one comment appended |
| CommentOps.AcceptedIffAdmissible | internal/coordinator/comments.go:39-208 | exactly the well-formed operations of a signed-in sender on their own tenant's threads are accepted; the resolve permission never decides anything |
| CommentOps.AcceptedEffect | internal/coordinator/comments.go:59-185 | what each of create, reply, resolve, reopen and outdated leaves in the thread |
| CommentOps.ReopenUndoesResolve | internal/coordinator/comments.go:119-155 | reopening an active thread that was resolved gives the thread back |
| CommentOps.AcceptedIsWellFormed | internal/coordinator/comments.go:59-185 | comments name their thread and an authenticated author; resolved iff resolved-by is set; active implies not resolved; resolved status implies resolved |
| CommentOps.StepKeepsValid | internal/coordinator/comments.go:39-57 | every operation keeps the store keyed and well formed and only evolves its threads |
| CommentOps.ThreadHistory | internal/coordinator/comments.go:39-185 | over every serialized run identities are fixed, threads are never lost, comments only grow by appending, and every thread stays well formed |
| CommentOps.EveryCommentIsAttributed | internal/coordinator/comments.go:77-112 | every stored comment was written by a request of the run under that sender's identity, id, time and tenant |
| CommentOps.OtherTenantsUntouched | internal/coordinator/comments.go:96-145 | an operation leaves every thread of every other tenant as it was |
| CommentOps.StatusStep | internal/coordinator/comments.go:119-185 | exactly which requests move the status of a stored thread, and to what |
| CommentOps.OutdatedStaysIff | internal/coordinator/comments.go:157-185 | an outdated thread stays outdated iff the request is not an admissible resolve or reopen of it |
| CommentOps.OutdatedOverRuns | internal/coordinator/comments.go:119-185 | over every run a thread ends outdated iff some request retired it and none revived it afterwards, or it was outdated and none revived it |
| CommentStores.ListingIsUnique | internal/coordinator/commentstore.go:21-34 | a listing sorted by id of exactly the matching threads is the one the store contract promises |
| CommentStores.SortById | internal/coordinator/commentstore.go:45-56 | sorts by id, keeping exactly the given threads |
| CommentStores.MemStore.PutThread | internal/coordinator/commentstore.go:68-73 | the thread replaces any earlier version and no other thread changes |
| CommentStores.MemStore.GetThread | internal/coordinator/commentstore.go:58-66 | a thread is found only under its own tenant |
| CommentStores.MemStore.ListForRepo | internal/coordinator/commentstore.go:45-56 | whatever order the map is visited in, the result is the promised listing |
| CommentStores.LoadedFromRows | internal/coordinator/pgstore.go:120-148 | a loaded comment is a stored row of that thread |
| CommentStores.RowIsLoaded | internal/coordinator/pgstore.go:120-148 | no stored row of the thread is missed |
| CommentStores.PgStore.Put | internal/coordinator/pgstore.go:79-117 | one transaction upserts the thread row and each comment row in turn |
| StoreRefinement.PutIsReplace | internal/coordinator/pgstore.go:79-117 | for a thread that extends the loaded one, the merge rule has the effect of a replace on what readers see |
| StoreRefinement.StepRefines | internal/coordinator/pgstore.go:28-148 | one operation against the tables and against the map give the same threads |
| StoreRefinement.SerializedRunsAgree | internal/coordinator/pgstore.go:28-148 | every serialized run gives the same threads in the Postgres and the in-memory store |
| StoreRefinement.EmptyStoresAgree | internal/coordinator/commentstore.go:41-73 | the same from two empty stores |
| StoreInterleaving.StepKeepsInv | internal/coordinator/comments.go:92-117 | every interleaved load, edit and put keeps all copies consistent with the comments ever minted |
| StoreInterleaving.RunKeepsInv | internal/coordinator/comments.go:92-117 | the same for every interleaving |
| StoreInterleaving.CommittedCommentsSurvive | internal/coordinator/pgstore.go:79-117 | every comment of a committed copy is read back unchanged at the end of every run |
| StoreInterleaving.RowIsLastPut | internal/coordinator/pgstore.go:84-99 | after every run the mutable columns of a thread row are those of the copy the last operation put |
| StoreInterleaving.ResolvedIff | internal/coordinator/pgstore.go:84-99 | a thread ends resolved iff the last operation to put it resolves it, or leaves the flag alone and had loaded it resolved |
| StoreInterleaving.ResolveSurvivesIff | internal/coordinator/pgstore.go:55-99 | a resolve survives the next put iff that operation resolves too, or does not reopen and loaded the row after the resolve or already resolved |
| StoreInterleaving.StaleReplyUndoesResolve | internal/coordinator/comments.go:92-155 | a run from the empty store, for any two members of a tenant, in which a reply loaded before a resolve undoes it |
| CommitViews.RunStaysShaped | internal/coordinator/comments.go:59-185 | in every interleaving each copy agrees with its thread's fixed columns and is in id order, and what an operation minted is stored nowhere and held by no other until it commits |
| CommitViews.CommitShowsCopyIff | internal/coordinator/pgstore.go:79-117 | right after a commit readers see the committed copy iff each comment stored for the thread before it had been loaded by the operation |
| CommitViews.CommitView | internal/coordinator/pgstore.go:28-117 | with others in flight a commit changes what readers see of its own thread only |
| ReplaceInterleaving.RunKeepsSound | internal/coordinator/comments.go:77-111 | in every run each copy's slice lies within its array and all its cells have been written, whatever shares them |
| ReplaceInterleaving.RunIsTraced | internal/coordinator/comments.go:92-117 | in every run each copy is traced to its load, and right after its edit shows what the loaded slice then showed and what its operation minted |
| ReplaceInterleaving.MapIsLastPut | internal/coordinator/commentstore.go:68-73 | after every run the map holds exactly the threads put, each with the fields and the slice of the last operation that put it |
| ReplaceInterleaving.CommentSurvivesIff | internal/coordinator/comments.go:92-117 | a comment is in the map at the end iff the slice put last covers a cell to which it was the last to be written |
| ReplaceInterleaving.PutShowsIff | internal/coordinator/comments.go:92-117 | at the end a thread shows what its last put loaded and minted iff no append fell on the loaded cells before its edit or on its own cells after it |
| ReplaceInterleaving.UnsharedCommentSurvivesIff | internal/coordinator/comments.go:92-117 | along runs in which no append finds its cell already written, a comment is in the map iff the last operation to put its thread minted it or had loaded it |
| ReplaceInterleaving.ResolvedIff | internal/coordinator/commentstore.go:58-73 | the resolved flag at the end is what the last put sets, or else what its load found |
| ReplaceInterleaving.ConcurrentReplyIsLost | internal/coordinator/comments.go:92-117 | a run from the empty store, for any two senders of a tenant, in which the first of two concurrent replies is committed and then gone |
| ReplaceInterleaving.LastPutLosesItsReply | internal/coordinator/comments.go:104-117 | from every idle state whose thread has room in its array, two concurrent replies can leave the one put last gone and the other in its place |
| ReplaceInterleaving.LastPutLosesItsReplyFromTheStart | internal/coordinator/comments.go:77-117 | such a run from the empty store, after a create and two replies one after the other |
| CommentRelays.DrainHead | internal/handler/commentrelay.go:56-70 | handling the oldest frame now and the rest later gives the same cache |
| CommentRelays.DrainAppend | internal/handler/commentrelay.go:72-95 | a frame behind the queue is folded last |
| CommentRelays.CommentRelay.Apply | internal/handler/commentrelay.go:72-95 | a sync replaces a repository's whole set, any other frame upserts its thread, other repositories stay |
| CommentRelays.CommentRelay.ThreadsForRepo | internal/handler/commentrelay.go:100-112 | lists exactly the cached threads of the repository, sorted by id |
| CommentRelays.ListingIndexed | internal/handler/commentrelay.go:77-84 | a store listing, indexed by id as the relay does, is exactly the repository's threads |
| Registries.RemotesAreTheNamedOnes | internal/coordinator/wire.go:99-107 | a remote is listed iff some workspace carries that non-empty key |
| Registries.Remotes | internal/coordinator/wire.go:99-107 | the non-empty keys in manifest order |
| Registries.Registry.Join | internal/coordinator/registry.go:98-116 | a new generation replaces the registration and emits join or manifest |
| Registries.Registry.UpdateManifest | internal/coordinator/registry.go:118-131 | only a registered id changes, keeping principal and connection |
| Registries.Registry.Leave | internal/coordinator/registry.go:133-147 | removes a registered id and announces it |
| Registries.Registry.LeaveRegistration | internal/coordinator/registry.go:149-161 | removes the id only if it still carries that generation |
| Registries.Registry.InstancesForRemote | internal/coordinator/registry.go:196-208 | every registered instance serving the remote, each once |
| Registries.RegisteredIffLatestJoinLives | internal/coordinator/registry.go:98-161 | after any calls an id is registered iff its latest join has not left, and then under that join's generation |
| Registries.StaleLeaveIsNoOp | internal/coordinator/registry.go:149-161 | leaving with the token of a superseded join changes nothing |
| Registries.SecondLeaveIsNoOp | internal/coordinator/registry.go:149-161 | leaving twice with one token is leaving once |
| Registries.EventsComeInRounds | internal/coordinator/registry.go:98-161 | each id's events have the form (join manifest* leave)*, the last round open iff it is registered |
| CommentServices.Wire.Send | internal/coordinator/accept.go:220-235 | a frame joins the back of an open connection's queue, or is lost |
| CommentServices.FanToIsFanOut | internal/coordinator/comments.go:210-221 | visiting the receiving instances in any order gives each receiving connection the frame exactly once and no other connection anything |
| CommentServices.CommentService.Fanout | internal/coordinator/comments.go:210-221 | the thread reaches exactly the instances of its tenant that serve the repository |
| CommentServices.CommentService.Apply | internal/coordinator/comments.go:39-185 | stores and fans out what was decided; a rejected or unstorable operation changes neither store nor queues |
| CommentServices.CommentService.SyncTo | internal/coordinator/comments.go:226-241 | pushes, in manifest order, the full listing of each served repository, skipping those whose query fails |
| Coordination.InvStays | internal/coordinator/accept.go:79-195 | every step keeps registrations, connections and phases consistent, including reused instance ids |
| Convergence.SubmitAt | internal/coordinator/comments.go:210-221 | after an operation and its fan-out the drained cache still equals the store |
| Convergence.SyncAt | internal/coordinator/comments.go:226-241 | after a sync step the pushed repository is in agreement and the others still are |
| Convergence.DeliverAt | internal/handler/commentrelay.go:72-95 | delivering a frame keeps the drained cache |
| Convergence.GoodStays | internal/coordinator/accept.go:79-109 | every step keeps agreement for every live connection and every repository synced since it joined the manifest |
| SyncCoverage.CoveredStays | internal/coordinator/accept.go:146-174 | a served repository is unsynced only while its query failed or some handler still owes it |
| SyncCoverage.RunsStayGood | internal/coordinator/accept.go:79-109 | agreement, coverage and isolation hold along every run |
| SyncCoverage.CacheConvergence | internal/coordinator/comments.go:210-241 | in every reachable state draining a live connection makes its cache equal the store for each synced repository |
| SyncCoverage.QuietConvergence | internal/coordinator/accept.go:79-109 | with no handler mid-sync and no failed query this covers every served repository, and an empty queue means the cache is the store |
| SyncCoverage.TenantIsolation | internal/coordinator/comments.go:206-221 | no queued frame ever carries a thread of another tenant |
| SyncCoverage.RelayListsTheStore | internal/handler/commentrelay.go:100-112 | a relay whose cache agrees lists exactly what the coordinator lists |
| SplitCoordination.StaysSane | internal/coordinator/comments.go:92-241 | every step of the protocol with its queries, edits, commits, fan-outs and sends taken apart keeps registrations, operations in flight, readings and fan-outs consistent |
| SplitConvergence.SendAgreesIff | internal/coordinator/pgstore.go:28-53 | after a send the drained cache equals the store on that repository iff the rows read and the comments read after them are the current ones |
| SplitConvergence.FanOutShowsIff | internal/coordinator/comments.go:210-224 | after a fan-out the drained cache shows the thread as stored iff the copy fanned out is what the store shows |
| SplitConvergence.FanOutAgreesIff | internal/coordinator/comments.go:92-117 | that is so iff each comment stored for the thread before the commit had been loaded by the operation and no later commit changed the thread |
| SplitConvergence.SplitCacheConvergence | internal/coordinator/comments.go:92-241 | along every split run in which no commit falls between another operation's load and its fan-out, or a sync's reads and its send, on the same threads, drained caches equal the store but for threads whose fan-out is awaited |
| SplitConvergence.FansOutOfOrder | internal/coordinator/comments.go:112-116 | two fan-outs of one thread sent against the order of their commits leave the cache right iff the second commit changed nothing |
| SplitConvergence.OvertakenSyncIff | internal/coordinator/comments.go:226-241 | a sync overtaken by a commit in its repository leaves the cache right iff the commit changed nothing readers see |
| SplitRuns.StaleCopyIsFannedOut | internal/coordinator/comments.go:92-117 | a run from nothing, for any two members of a tenant, after which a cache lacks a stored reply though nothing is in progress and no later commit occurred |
| SplitRuns.OutOfOrderIsReachable | internal/coordinator/comments.go:92-117 | a run from nothing, for any two members, in which fan-outs against the order of their commits leave a cache without the second reply |
| SplitRuns.OvertakenSyncIsStale | internal/coordinator/comments.go:226-241 | a run from nothing, for any two members, in which a sync overtaken by a create leaves a cache without the thread |
| ParallelGroups.NamesBySlug | internal/flow/engine.go:161-184 | with distinct slugs, a link is declared iff one step lists the other's slug |
| ParallelGroups.ConnectedIsEquivalence | internal/flow/engine.go:149-155 | being linked by a chain is an equivalence |
| ParallelGroups.GroupsAreComponents | internal/flow/engine.go:147-216 | every step is in exactly one group, two share a group iff a chain links them, groups are ordered by first member and members by authored order |
| ParallelGroups.BuildAdjacency | internal/flow/engine.go:172-180 | neighbours are exactly the steps linked in either direction |
| ParallelGroups.Closure | internal/flow/engine.go:191-206 | the breadth-first search finds exactly the steps connected to the first one |
| ParallelGroups.BuildParallelGroups | internal/flow/engine.go:156-216 | returns exactly the connected components, in that order |
| FlowEngine.Confluence | internal/flow/engine.go:44-145 | every interleaving that gets through gives the same prompts and the same results |
| FlowEngine.FailureStopsTheFlow | internal/flow/engine.go:66-127 | no run launches a step of a group after one with a failing mandatory step |
| FlowEngine.CanGoOn | internal/flow/engine.go:66-127 | until a flow stops or is through, some step of it can be taken |
| FlowEngine.OnlyFailureStops | internal/flow/engine.go:66-127 | an uncancelled run with nothing left to do is through every group iff no mandatory step fails, and otherwise stands stopped at the first group in which one does |
| FlowEngine.ResultsContents | internal/flow/engine.go:56-60 | a result is present iff that step succeeded in an earlier group, and it is that step's own |
| FlowEngine.PromptComesFromEarlierGroup | internal/flow/engine.go:133-145 | a step is fed its input step's result iff that step succeeded in an earlier group, else the base prompt |
| FlowEngine.DuplicateSlugsRace | internal/flow/engine.go:96-125 | two steps of a group with one slug leave the result of whichever returns last |
| FlowEngine.ExecuteGroup | internal/flow/engine.go:88-125 | whatever order the steps return in, a group fails iff a mandatory step fails, and otherwise parses exactly the reference results |
| FlowEngine.Execute | internal/flow/engine.go:44-129 | fails iff a mandatory step of some group fails; otherwise the results are the reference's |
| CriticalPath.WalkIsSound | internal/graph/graph.go:307-325 | on every graph the memo entry of a node from which no cycle can be reached is its longest chain |
| CriticalPath.Walker.Walk | internal/graph/graph.go:307-325 | terminates on every graph with the memo and answer of the specified walk |
| CriticalPath.WalkAll | internal/graph/graph.go:327-332 | the start chosen has the greatest length in the memo, which is exact wherever no cycle can be reached |
| CriticalPath.Reconstruct | internal/graph/graph.go:336-344 | on any graph, from a node that reaches no cycle the memo unrolls into a chain of the promised length |
| CriticalPath.Longest | internal/graph/graph.go:284-349 | on acyclic dependencies a repetition-free chain of work-ordering edges that none exceeds, empty iff there is no such edge |
| CriticalPath.AcyclicIff | internal/graph/graph.go:289-297 | the adjacency is acyclic iff the work-ordering edges are |
| CriticalPath.ChainsDoNotRepeat | internal/graph/graph.go:279-283 | without cycles no chain repeats a node |
| Reconstruction.TameTrail | internal/graph/graph.go:336-344 | from a node that reaches no cycle the loop follows a longest chain and ends with it |
| Reconstruction.EndsIffItLeavesTheCycles | internal/graph/graph.go:336-344 | the loop ends iff it gets to a node from which no cycle can be reached |
| Reconstruction.NoSinkNeverEnds | internal/graph/graph.go:336-344 | the loop never ends when no sink can be reached from its start |
| Reconstruction.EndsWithinTheNodes | internal/graph/graph.go:336-344 | the loop ends iff it ends within as many hops as there are nodes |
| Reconstruction.LoopOutcome | internal/graph/graph.go:284-344 | these three of the start the walk chooses, for every list of nodes and edges |
| Reconstruction.BackFirstNeverEnds | internal/graph/graph.go:289-344 | for edges a to b, b to a, b to c in this order the loop never ends |
| Reconstruction.OnFirstEnds | internal/graph/graph.go:289-344 | with the last two edges exchanged it ends |
| Reconstruction.EdgeOrderDecides | internal/graph/graph.go:289-344 | so the same nodes and the same edges decide differently by the order of the edges |
| DepGraph.IdSpaces | internal/graph/graph.go:83-86 | spec and task ids never coincide and each prefix is injective |
| DepGraph.EmitSpecEdges | internal/graph/graph.go:150-166 | the containment, dependency and dispatch edges of one spec, in order |
| DepGraph.EmitTaskEdges | internal/graph/graph.go:178-186 | the dependency edges of one task and whether a prerequisite is unmet |
| DepGraph.BuildGraph | internal/graph/graph.go:93-203 | the node, edge and blocked lists of the whole graph |
| GraphLaws.EdgesAreDeclared | internal/graph/graph.go:150-186 | an edge is emitted iff the input declares it between displayed ends |
| GraphLaws.NodesAreNamed | internal/graph/graph.go:128-203 | a node is emitted iff its spec or task is displayed |
| GraphLaws.EdgesJoinNodes | internal/graph/graph.go:150-186 | every emitted edge joins two emitted nodes |
| GraphLaws.CombinedIsAcyclic | internal/graph/graph.go:83-203 | acyclic spec and task dependencies give an acyclic combined graph |
| GraphLaws.AcyclicExactlyWhenBothAre | internal/graph/graph.go:83-203 | the combined graph is acyclic iff both displayed dependency relations are |
| GraphLaws.Build | internal/graph/graph.go:93-207 | on acyclic dependencies the graph comes with a longest dependency chain |
| ArchivedView.DefaultViewIsRestriction | internal/graph/graph.go:93-207 | the default view is the full view restricted to displayed nodes, in the same order, with the same verdicts |
| ArchivedView.BlockedXorStart | internal/graph/graph.go:195-201 | a displayed backlog task has exactly one of blocked and start |
| EnvFile.JoinSplit | internal/envconfig/envconfig.go:575-630 | joining the split lines gives the file back |
| EnvFile.SplitJoin | internal/envconfig/envconfig.go:575-630 | splitting joined one-line lines gives the lines back |
| EnvFile.StripEnvInlineComment | internal/envconfig/envconfig.go:386-420 | cuts at the first hash outside quotes and trims |
| EnvFile.ReadRawFile | internal/envconfig/envconfig.go:262-274 | the map in which a later line for a key wins |
| EnvFile.FiledLineIsRead | internal/envconfig/envconfig.go:363-381 | a line the editor files under a managed key is read under that key and is no export line |
| EnvFile.ReadLineIsFiled | internal/envconfig/envconfig.go:583-591 | a line read under a key is filed under it unless it starts with export |
| EnvFile.AssignmentIsRead | internal/envconfig/envconfig.go:606-621 | a written line is read and filed under its own key |
| EnvFile.PlainExactlyWhenReadBack | internal/envconfig/envconfig.go:386-420 | a value reads back unchanged iff it is trimmed, unquoted and has no bare hash |
| EnvUpdate.EditInPlace | internal/envconfig/envconfig.go:582-609 | rewrites or blanks exactly the lines of touched keys and reports the keys seen |
| EnvUpdate.AppendNew | internal/envconfig/envconfig.go:611-621 | one line for each set key not seen, in known-key order |
| EnvUpdate.UpdateRaw | internal/envconfig/envconfig.go:574-633 | the three phases give the edited lines, the additions and one final newline |
| EnvLines.WrittenLines | internal/envconfig/envconfig.go:623-631 | the written bytes split back into the lines of the kept pieces, newlines in values included, up to blank lines at the end |
| EnvLines.SameContentIff | internal/envconfig/envconfig.go:623-631 | two lists of pieces are written alike iff their lines agree up to blank lines at the end |
| EnvLaws.ReadOfUpdated | internal/envconfig/envconfig.go:262-274 | reading the written file is reading the lines of the kept pieces, for every update |
| EnvLaws.ReadAfterUpdate | internal/envconfig/envconfig.go:574-633 | the value of every key after every update of managed keys, with export lines and values of several lines |
| EnvLaws.UntouchedKeepsIff | internal/envconfig/envconfig.go:574-633 | an untouched key keeps its value iff no continuation line of a written value changes what is read under it |
| EnvLaws.UntouchedInEveryFileIff | internal/envconfig/envconfig.go:574-633 | an update leaves an untouched key alone in every file iff no continuation line of a value it sets reads that key |
| EnvLaws.SetReadsBack | internal/envconfig/envconfig.go:606-621 | exactly when a set key reads back as the value set: continuation lines, shadowing export lines, and else a plain value on one line |
| EnvLaws.ClearRemoves | internal/envconfig/envconfig.go:602-605 | a cleared key is gone iff no export line names it and no continuation line gives it a value |
| EnvLaws.PutGet | internal/envconfig/envconfig.go:574-633 | for plain one-line values, no export lines and no continuation line reading the key, the file reads as the old map overridden by the update |
| EnvLaws.ExportLineIsInvisible | internal/envconfig/envconfig.go:363-381 | an export line is read under its key and filed under another |
| EnvLaws.ReadValuesAreOneLine | internal/envconfig/envconfig.go:262-274 | no value read has a newline, so only one-line values can read back |
| EnvLaws.NewlineSetsAnotherKey | internal/envconfig/envconfig.go:606-621 | setting one key to a value whose second line assigns another key sets that key too |
| EnvRewrites.UntouchedLinesStay | internal/envconfig/envconfig.go:582-631 | among the first lines of what is kept, the untouched ones are those of the file, in order |
| EnvRewrites.InsertionLaw | internal/envconfig/envconfig.go:623-631 | inserting lines leaves a text as it was, up to blank lines at its end, iff all are blank and followed by blank lines only |
| EnvRewrites.UntouchedBytesStayIff | internal/envconfig/envconfig.go:574-633 | the written file has the same untouched lines in the same order iff the values set continue on none but harmless blank ones |
| EnvRewrites.UpdateIsIdempotentIff | internal/envconfig/envconfig.go:574-633 | the same update applied twice gives the same bytes as once iff what it edits the continuation lines to is harmless blanks |
| EnvRewrites.OneLineUpdateIsIdempotent | internal/envconfig/envconfig.go:574-633 | an update whose values are each on one line is idempotent on every file |
| EnvRewrites.NewlineIsNotIdempotent | internal/envconfig/envconfig.go:574-633 | an update that sets another key by a second line adds that line once more each time |
| Executor.PathFalls | internal/executor/backend.go:46-53 | every transition costs rank |
| Executor.TerminalIsLast | internal/executor/backend.go:46-53 | a terminal state is the last of its history, which has at most five |
| Executor.StateCell.CompareAndSwap | internal/executor/backend.go:66-68 | swaps iff the state is still the one loaded |
| Executor.StateCell.Transition | internal/executor/backend.go:58-71 | makes its one valid move or stops in a state that forbids it; retries are bounded by the moves left |
| AgentLifecycle.StepKeepsInv | internal/executor/host.go:245-557 | every step keeps the budget count and each handle's state in line with its calls |
| AgentLifecycle.BudgetIsKept | internal/executor/host.go:164-175 | in every run the agents holding a slot are counted exactly and never exceed MaxAgents |
| AgentLifecycle.SlotsAreFreedOnce | internal/executor/host.go:280-289 | each slot is freed exactly once on either path, and freeing never blocks |
| AgentLifecycle.QuietBudgetIsFull | internal/executor/host.go:474-480 | when all agents are done the whole budget is back |
| AgentLifecycle.KilledIff | internal/executor/host.go:509-516 | a handle went through Stopping iff some Kill of the run found it running |
| AgentLifecycle.WaitEndsIn | internal/executor/host.go:474-516 | an exit status ends Stopped whatever Kill does; another error ends terminal iff no Kill of the run found the agent running |
| AgentLifecycle.StatesMoveForward | internal/executor/backend.go:46-53 | along every run a handle only moves forward, and a terminal one never moves |
| AgentLifecycle.TableIsExact | internal/executor/host.go:362-364 | with distinct live names the process table lists exactly the registered, unreaped agents |
| AgentLifecycle.ReapingUnlistsNamesakes | internal/executor/host.go:553-557 | reaping unlists another listed agent iff it has the same name |
| AgentLifecycle.HostBackend.constructor | internal/executor/host.go:130-160 | an empty budget and table |
| AgentLifecycle.HostBackend.AcquireSlot | internal/executor/host.go:164-175 | reserves a slot iff the budget is unlimited or not exhausted |
| AgentLifecycle.HostBackend.Release | internal/executor/host.go:164-175 | gives one slot back, and there is one to give |
| AgentLifecycle.HostBackend.RegisterHandle | internal/executor/host.go:362-364 | the table lists the handle under its name |
| AgentLifecycle.HostBackend.RemoveFromBackend | internal/executor/host.go:553-557 | the name leaves the table |
| AgentLifecycle.HostBackend.KillHandle | internal/executor/host.go:509-516 | moves a running agent to Stopping and nothing else |
| LineReader.CutLine | internal/agentsession/conversation.go:159-180 | reading a line in two fragments is reading it in one |
| LineReader.BufferedReader.ReadLine | internal/agentsession/conversation.go:159-163 | some fragment of the line, its end, or the end of the file |
| LineReader.ReadLogicalLine | internal/agentsession/conversation.go:159-180 | for every fragmentation: the whole line if it fits, else oversized and drained; the assembly buffer never holds more than the cap |
| LineReader.ReadMessages | internal/agentsession/conversation.go:122-151 | the in-order decoding of exactly the well-formed non-empty lines under the cap, whatever the buffer |
| LineReader.AppendLaw | internal/agentsession/conversation.go:70-90 | what reading gives after appending to any file, including one with a torn last record |
| LineReader.RoundTrip | internal/agentsession/conversation.go:70-151 | appended messages under the cap read back in order; one over it loses nothing else |
| LineReader.ConversationStore.AppendMessage | internal/agentsession/conversation.go:70-90 | after a whole file the message reads back last iff its record fits |
| LineReader.ConversationStore.ReadAll | internal/agentsession/conversation.go:94-108 | the messages of the log |
| SessionManager.FirstVisibleIs | internal/agentsession/sessions.go:196-203 | empty iff nothing is visible, else the visible thread before which all are archived |
| SessionManager.ParseChatName | internal/agentsession/sessions.go:597-615 | the number of a default name, if it is one |
| SessionManager.ParseDefaultName | internal/agentsession/sessions.go:256-256 | the generated name parses back to its number |
| SessionManager.NextDefaultName | internal/agentsession/sessions.go:249-257 | a name no thread has, numbered above every default name |
| SessionManager.RunKeepsValid | internal/agentsession/sessions.go:188-519 | every run of operations keeps the active thread empty or visible, ids distinct and the manifest sorted |
| SessionManager.CascadeRoundTrip | internal/agentsession/sessions.go:364-453 | cascade-archive then cascade-unarchive restores every flag iff no pinned thread was cascade-archived before |
| SessionManager.UserChoiceStays | internal/agentsession/sessions.go:312-317 | a visible thread carrying the flag is a fixed point of every sequence of cascades |
| SessionManager.ManualUnarchiveOverrides | internal/agentsession/sessions.go:318-329 | a manual unarchive of a cascade-archived thread makes it such a thread |
| SessionManager.ManualArchiveLastsIff | internal/agentsession/sessions.go:421-453 | a manual archive lasts through a cascade-unarchive iff the thread does not carry the flag or is not pinned to that task |
| SessionManager.ArchivedThroughCascades | internal/agentsession/sessions.go:364-453 | over any sequence of cascades an archived thread is visible again iff it carried the flag and a concerned cascade-unarchive was not followed by a concerned cascade-archive |
| SessionManager.Manager.EnsureValidActive | internal/agentsession/sessions.go:188-204 | keeps a visible preference, else takes the first visible thread or none |
| SessionManager.Manager.Create | internal/agentsession/sessions.go:224-245 | adds the thread in creation order under the given or a fresh default name |
| SessionManager.Manager.Archive | internal/agentsession/sessions.go:285-309 | archives the thread and moves the active one off it |
| SessionManager.Manager.Unarchive | internal/agentsession/sessions.go:318-329 | shows the thread again, keeping its cascade flag |
| SessionManager.Manager.Delete | internal/agentsession/sessions.go:336-359 | removes an archived thread; refuses a visible or unknown one |
| SessionManager.Manager.SetActiveId | internal/agentsession/sessions.go:506-519 | activates a visible thread; refuses an archived or unknown one |
| SessionManager.Manager.CascadeArchiveForTask | internal/agentsession/sessions.go:364-415 | archives and flags exactly the visible, unflagged threads pinned to a task, ending on the first visible thread if the active one was hit |
| SessionManager.Manager.CascadeUnarchiveForTask | internal/agentsession/sessions.go:421-453 | shows and unflags exactly the flagged archived threads pinned to a task |
| Migration.StepKeepsInv | internal/agentsession/sessions.go:84-168 | every disk operation and every crash keeps the migration invariant |
| Migration.NothingIsLost | internal/agentsession/sessions.go:114-160 | for any number of crashes anywhere the legacy content is whole at the root or in the thread the manifest names |
| Migration.OpenedIsMigrated | internal/agentsession/sessions.go:84-109 | a completed opening leaves exactly one thread, "Chat 1", with exactly the legacy content, active, and no legacy file |
| Migration.SessionDirectory.CopyMessagesFile | internal/agentsession/sessions.go:575-593 | copies in any pieces, following the machine |
| Migration.SessionDirectory.CopySessionFile | internal/agentsession/sessions.go:575-593 | the same for the session file |
| Migration.SessionDirectory.MigrateOrInit | internal/agentsession/sessions.go:114-160 | the first opening follows the machine up to the removal of the originals |
| Migration.SessionDirectory.LoadOrMigrate | internal/agentsession/sessions.go:84-109 | opening ends migrated, and every disk state on the way is intact |
| Migration.SessionDirectory.EnsureValidActive | internal/agentsession/sessions.go:170-204 | the active preference is repaired as the last step |
| FileIndex.StepKeepsInv | internal/handler/file_index.go:105-163 | every critical section keeps the invariant of calls, refreshes and entries |
| FileIndex.OneRefreshEach | internal/handler/file_index.go:143-163 | in every run at most one background refresh per workspace, and the flag is set iff one exists |
| FileIndex.AnswersDoNotGoBack | internal/handler/file_index.go:105-139 | every answer is a stored build of that workspace and no older than any answer returned before the call began |
| FileIndex.EntriesMoveForward | internal/handler/file_index.go:153-162 | entries are never dropped and only move to builds that began later |
| FileIndex.FileCache.Lookup | internal/handler/file_index.go:105-124 | the cached build if there is one |
| FileIndex.FileCache.TriggerRefresh | internal/handler/file_index.go:143-151 | spawns iff none is running, and afterwards one is |
| FileIndex.FileCache.StoreCold | internal/handler/file_index.go:126-139 | stores the first build and answers with whichever is cached |
| FileIndex.FileCache.StoreRefresh | internal/handler/file_index.go:153-162 | replaces the entry by a build that began later |

## Left out

- WebSocket, HTTP, JSON and SQL plumbing: frames, rows and records are values; encoding and decoding of log records are a pair of functions.
- The lossy subscriber channels of the registry and the relay: they only wake readers, which then take a whole snapshot, so no result here depends on what they drop. The registry's Snapshot and PrincipalsInOrg are plain filters of its map.
- Wrap-around of the registry's generation counter and of the digits of very long default names.
- Outside the interleaving and split modules a read of the Postgres store is one view of its tables; its indexes, isolation levels, and failures beyond a failed query or a whole failed operation are not modelled.
- Deadlines and cancellation beyond a launch that gives up waiting, which changes nothing, and a flow stopped between groups or cancelled by a failing sibling.
- FlowEngine.Confluence: an agent's outcome is a function of its slug and prompt, except that after a mandatory failure the cancelled siblings may return anything.
- EnvLaws.ReadAfterUpdate: for managed keys, which are upper-case words; the list of known keys is a parameter.
- SplitConvergence.SplitCacheConvergence: over the Postgres store; one fan-out reaches all its receivers in one step. The in-memory store's interleavings are in ReplaceInterleaving, without relays.
- SplitRuns.StaleCopyIsFannedOut: the members' manifests name one repository each, like those of the other runs there.
- ReplaceInterleaving.RunKeepsSound: the appends and reads of a shared array are single steps; the memory model of unsynchronized accesses is not modelled.
- AgentLifecycle.HostBackend.KillHandle: signals, grace periods and process groups are left to the operating system.
- Migration.SessionDirectory.LoadOrMigrate: removing a legacy file is taken to succeed; a manifest that cannot be parsed stops the opening.
- LineReader.ReadMessages: read errors other than the end of the file.
- SessionManager.Manager.CascadeArchiveForTask: operations are serialized and manifest writes succeed; one clock reading per call.
- Rename, Touch, List and Meta of sessions, session contents, and the runtime of a turn.
- The walk that lists files, and when an entry counts as stale.
- Task execution, device authorisation, the GitHub client, token brokers, the TTL caches, agent graphs, output tees, the CLI and the frontend.
