# LongMemory: verified models of its hard cores

A Dafny model of the parts of LongMemory whose correctness rests on an argument rather than on a table, with proofs of
what they are for. One module models one part; `Common` holds the few definitions that several of them share.

- **Agent patches** (`Patience`, `EditScript`, `Hunks`, `Utf8`, `ByteBudget`). The extension turns two versions of a file
  into a patch: common unique lines, a patience search for a longest increasing chain of them, an edit script, hunks with
  context and headers, and a cut to a UTF-8 byte budget. The search is optimal, the script is numbered and keeps the
  longest chain, the hunks are apart and cover exactly what lies near a change, and a strict patch tool that checks every
  mark and every header turns the old lines into the new ones exactly when no line inside a hunk is redacted. The encoder and decoder of sections 3 and 4 of RFC 3629 are each
  other's inverse, and the cut keeps the longest prefix of whole code points.
- **Change tracking** (`ChangeTracker`). The extension's event machine over edits, timers, reviews, recordings and
  sessions, in any interleaving.
- **Memory state** (`EmbeddingCache`, `DomainPlans`, `ImportWorlds`, `ImportActions`, `DurableGraph`, `DecayPaging`). The
  bounded cache of loads in flight over every interleaving of its callers; the plans that documents are mapped to; the worklist
  that creates the worlds of an import plan; the tombstones and supersessions of a plan; the undo logs behind checkpoints
  and the all-or-nothing commit built on them; decay in pages, which is one full scan, also when a call fails.
- **Benchmarks** (`BenchmarkRun`, `RankingMetrics`, `Latency`, `Sampling`). The run protocol with every call allowed to
  fail, resume, and corpus reuse; nDCG, recall and F1; interpolated percentiles; sampling windows.
- **Sync, scope, clustering** (`ConnectorSync`, `ProjectScope`, `Clustering`). Incremental sync as a replay into a cursor;
  the subtree of a project; quota clustering and the merge of similar clusters.

Code that updates fields, maps or arrays is modelled by classes and methods with loops, each proved against a
specification function or a direct property; what holds over whole runs is proved about those functions.

## How the model reads the program

- Floats are reals. Collation (`localeCompare`) is any strict total order, the discount of a rank any positive, strictly
  decreasing one, similarities any that are not negative, hashes and minted ids any function of what they are made from.
- Strings are sequences of characters; for UTF-8 they are sequences of Unicode scalar values, so a string with a lone
  surrogate is not covered.
- What a call to the outside does (a provider, a model, the command line tool, a fetch, a store) is a parameter that
  says whether it succeeds, and the theorems hold for all values of it.
- An object that several places refer to is an entry of a map by its id; ids of objects that are made are new.

## What the proofs found

Each of these is a condition proved to be exact, or a concrete run, in the lemma named.

- A redacted line spoils the patch only inside a hunk: elsewhere in the file it does no harm
  (`Hunks.PatchRoundTripExactlyWhen`).
- A line that occurs twice on a side is never kept by the diff (`EditScript.KeptLinesOccurOnce`), so a patch reports no
  change exactly when the lines agree and none repeats (`EditScript.UnchangedExactlyWhen`); texts that differ only in line
  endings still get a patch, of no hunks or of repeated lines (`Hunks.RenderFilePatch`).
- `truncate_utf8` decodes with a decoder that drops a leading byte order mark, so the cut text is not a prefix of the value
  exactly when the value starts with the mark and at least its three bytes fit (`ByteBudget.TruncationIsPrefixUnless`).
- Rolling a checkpoint back spoils a younger one exactly when it changes a key that the younger one has not logged
  (`DurableGraph.RollbackKeepsRestorableExactlyWhen`); in the order the commit uses them this cannot happen.
- The paging loop of `maintenance decay --all` stops early exactly when a page ends in a node with an empty id
  (`DecayPaging.SweepEndsExactlyWhen`, `DecayPaging.EmptyIdEndsTheSweep`). A call that fails ends it with a prefix swept
  and the rest untouched (`DecayPaging.FailureKeepsPages`), and a run from there makes it whole
  (`DecayPaging.FailedRunGoesOn`).
- The active corpus is not cleared when a later corpus fails to ingest. Reuse is still safe in every run, because of the
  sort, exactly when no corpus id is shared by two datasets (`BenchmarkRun.RunnerReuseIsSafeExactlyWhen`).
- Two stops of one editor session that overlap can lose a session started in between
  (`ChangeTracker.OverlappingStopsLoseASession`); what the tracker counts is kept exactly by the orderly events and by two
  harmless ends of late stops (`ChangeTracker.CountKeptExactlyWhen`, and over whole runs
  `ChangeTracker.RunsConserveExactlyWhen`). Disorder is also an error of the callback behind a
  recording, which makes a stop queue a session that is recorded; the callback wired in
  `apps/vscode-extension/src/extension.ts:83-87` awaits a refresh that handles its own errors.
- An edit that goes to a session in a serial run is read before the stop of the session ends exactly when its path is not
  among those that the stop has read by then (`ChangeTracker.EditIsReadExactlyWhen`); `ChangeTracker.LateEditIsLost` is a
  run in which it is not and ends up in no change.
- An item that is listed again with the checksum it was deleted with is reported unchanged and stays deleted
  (`ConnectorSync.RelistedStaysDeleted`); an item whose document has moved on from its listed checksum keeps the old one
  (`ConnectorSync.StaleShortcutKeepsOldChecksum`). Nothing else keeps an incremental run from being exact
  (`ConnectorSync.ReplayIsExactExactlyWhen`), and a full run repairs both (`ConnectorSync.FullRunIsExact`). But a full run
  forgets what is no longer listed: no deletion of it is ever reported, then or later (`ConnectorSync.OrphanIsNeverDeleted`).
- Two parts of a document that share a key, by an id or the index where there is none, leave only the last one in an edge
  (`DomainPlans.PartsAreLinkedExactlyWhen`): a comment with the id 1 before one at index 1, or two pages whose labels are
  not numbers (`DomainPlans.CommentLosesItsEdge`, `DomainPlans.PageLosesItsEdge`).
- A channel name or mail thread is one world of its connector whatever workspace or mailbox it is in, as the key of the
  world does not name that (`DomainPlans.WorldIsSharedExactlyWhen`).
- Creating a world whose minted id is taken replaces the world that has it; all worlds stay exactly when the id is free or
  its own (`ImportWorlds.PutKeepsAllExactlyWhen`).
- The vectors of a clustering are kept by content. Where a content repeats before the last vector, the memories behind it
  are compared as others, and a memory may join a cluster before one that is the same as its seed
  (`Clustering.AlignedExactlyWhen`, `Clustering.RepeatedContentMisplaces`).
- With more memories than clusters, clustering always drops at least one memory, and exactly one when all contents differ
  (`Clustering.Cluster`).

## Model

| member | source | states |
|---|---|---|
| Patience.UniqueLines | apps/vscode-extension/src/agent_changes.ts:64-73 | the map holds exactly the lines that occur once, each with its index |
| Patience.FirstTailNotBelow | apps/vscode-extension/src/agent_changes.ts:85-92 | the binary search finds the first tail whose value is not below the new one |
| Patience.TakeIn | apps/vscode-extension/src/agent_changes.ts:84-95 | one round keeps the search state: least tails of every length, ranks that rise, back links one rank down |
| Patience.FollowLinks | apps/vscode-extension/src/agent_changes.ts:96-102 | the back links from the last tail give an increasing selection as long as there are tails |
| Patience.NoneLongerThanTails | apps/vscode-extension/src/agent_changes.ts:82-95 | no increasing selection is longer than the tails |
| Patience.LongestIncreasing | apps/vscode-extension/src/agent_changes.ts:82-102 | the selection is increasing and no increasing selection is longer |
| Patience.CommonUniquePairs | apps/vscode-extension/src/agent_changes.ts:76-81 | the pairs are exactly the lines unique on both sides, by rising old index |
| Patience.ChainIsSelection | apps/vscode-extension/src/agent_changes.ts:78-95 | every chain of common unique lines is an increasing selection of the pairs' new indices |
| Patience.PatienceAnchors | apps/vscode-extension/src/agent_changes.ts:75-103 | the anchors are equal lines unique on both sides, strictly rising in both indices, and no such chain is longer |
| EditScript.SplitLosesOnlyLineEndings | apps/vscode-extension/src/agent_changes.ts:106-107 | joined with newlines the lines are the text up to carriage returns before newlines; texts split alike exactly when they agree up to those |
| EditScript.EmitGap | apps/vscode-extension/src/agent_changes.ts:119-120 | the removals and additions of a gap extend the script to its end and keep no line |
| EditScript.DiffLines | apps/vscode-extension/src/agent_changes.ts:105-128 | dropping additions gives the before lines, dropping removals the after lines, every operation carries its line numbers, and the lines it keeps are a longest chain of anchors |
| EditScript.KeptLinesOccurOnce | apps/vscode-extension/src/agent_changes.ts:116-128 | a kept line occurs once on each side, exactly where its numbers say, so a line that occurs twice on a side is never kept |
| EditScript.NumberAt | apps/vscode-extension/src/agent_changes.ts:111-117 | the numbers of an operation are one more than the lines of each side before it |
| EditScript.UnchangedExactlyWhen | apps/vscode-extension/src/agent_changes.ts:105-128 | no change is reported exactly when both sides are the same lines and none of them repeats |
| Hunks.ChangeRanges | apps/vscode-extension/src/agent_changes.ts:131-139 | the ranges rise, do not touch, and cover exactly the operations within the context of a change |
| Hunks.PatchRoundTripExactlyWhen | apps/vscode-extension/src/agent_changes.ts:130-150 | applying the rendered hunks strictly, every line with its mark and every hunk at its header's positions and counts, to the before lines gives the after lines exactly when no line inside a hunk is redacted |
| Hunks.BodyReadsBack | apps/vscode-extension/src/agent_changes.ts:145-147 | the removed and kept lines of a body are the old lines of the range, the added and kept ones the new lines, each redacted where it looks like a credential |
| Hunks.BodyIsMarked | apps/vscode-extension/src/agent_changes.ts:147 | every line of a body starts with the mark of an addition, of a removal or of a kept line |
| Hunks.NoRangesWithoutChange | apps/vscode-extension/src/agent_changes.ts:131-139 | there are no ranges exactly when no operation is a change |
| Hunks.NoHeaderCountIsZero | apps/vscode-extension/src/agent_changes.ts:143-146 | with context, and as a text always has a line, no header counts zero lines on a side |
| Hunks.NoCredentialShown | apps/vscode-extension/src/agent_changes.ts:59-147 | no line that looks like a credential is shown in a hunk |
| Hunks.RenderFilePatch | apps/vscode-extension/src/agent_changes.ts:152-155 | a patch is made exactly for a captured path whose texts differ; its hunks are those of a longest-chain script between the lines with two lines of context, they apply exactly when no line inside one is redacted, and there are none exactly when the lines agree and none repeats |
| Utf8.FitIsLongest | apps/vscode-extension/src/agent_changes.ts:166-172 | the fitting prefix of code points is the longest within the limit, at most three bytes below it if the text is longer |
| Utf8.DecodesExactly | apps/vscode-extension/src/agent_changes.ts:170 | bytes decode to a text exactly when they are its encoding |
| Utf8.CutDecodes | apps/vscode-extension/src/agent_changes.ts:169-172 | a cut of the encoding decodes exactly at the end of a code point, and to the prefix before it |
| Utf8.FatalDropsBom | apps/vscode-extension/src/agent_changes.ts:170 | the fatal decoder fails exactly where decoding does and otherwise drops one leading byte order mark |
| ByteBudget.TruncateUtf8 | apps/vscode-extension/src/agent_changes.ts:165-174 | the loop that shortens until decoding succeeds returns the longest fitting prefix, decoded |
| ByteBudget.TruncationIsPrefixUnless | apps/vscode-extension/src/agent_changes.ts:165-174 | the cut text is that longest prefix itself unless, and only unless, a byte order mark leads and fits; without room nothing is left |
| ByteBudget.CutToBudget | apps/vscode-extension/src/agent_changes.ts:184-193 | whole if it fits, otherwise cut and marked, or only cut where the marker does not fit |
| ByteBudget.CutKeepsBudget | apps/vscode-extension/src/agent_changes.ts:186-193 | for every budget from zero on the text takes no more bytes than the budget, marker included |
| ByteBudget.JoinedInOrder | apps/vscode-extension/src/agent_changes.ts:182 | the body is the patches in their order, each whole, with a blank line between them |
| ByteBudget.KeptInOrder | apps/vscode-extension/src/agent_changes.ts:177-180 | the files with a patch keep their order |
| ByteBudget.RenderAgentChange | apps/vscode-extension/src/agent_changes.ts:176-207 | nothing exactly when no file has a patch, otherwise the budgeted text with the paths of the files that have one |
| ChangeTracker.MergedIsNetChange | apps/vscode-extension/src/agent_changes.ts:157-161 | merging edits leaves every edited path once, from the text before its first edit to the text after its last |
| ChangeTracker.GatheredIsMerged | apps/vscode-extension/src/agent_tracker.ts:173-315 | in every run, in any order of events, every change holds exactly the merge of the edits gathered for it and the paths read for it, also once queued |
| ChangeTracker.HeuristicFilesAre | apps/vscode-extension/src/agent_tracker.ts:173-208 | in every run, a change that is no session has for every path that it gathered one file, and no others: from what the document of the first such edit held just before it to what the last one left |
| ChangeTracker.StoppedFilesAre | apps/vscode-extension/src/agent_tracker.ts:99-312 | where a stop ends in a serial run, the session has a file exactly for every read that knew both texts: the old one of the snapshot, or that the document held at the first edit, or none if created; the new one as read, or none if deleted last |
| ChangeTracker.SessionKnows | apps/vscode-extension/src/agent_tracker.ts:187-299 | in a serial run the active session knows of every path its old text, and whether it was created, is deleted last and is to be read, exactly as the edits and changes on disk since the start tell |
| ChangeTracker.StopEndsWatching | apps/vscode-extension/src/agent_tracker.ts:116-119 | once a stop of a session has begun no change on disk reaches it, in any run |
| ChangeTracker.StopDisposes | apps/vscode-extension/src/agent_tracker.ts:121-132 | a stop of the active session settles it exactly if it has no file or renders none, and otherwise begins to record it or queues it, as set |
| ChangeTracker.StoppedSessionHolds | apps/vscode-extension/src/agent_tracker.ts:301-315 | where a stop ends in a serial run, every path the session touched has been read once, in order, and its files are exactly the paths found with both texts, each once |
| ChangeTracker.EditIsReadExactlyWhen | apps/vscode-extension/src/agent_tracker.ts:187-315 | in every serial run, an edit that goes to a session is read before the stop of the session ends exactly when its path is not among those the stop has read by then |
| ChangeTracker.LateEditIsLost | apps/vscode-extension/src/agent_tracker.ts:187-193 | a serial run in which an edit of a path that the stop has read already goes to the session, is not read again and is in no change |
| ChangeTracker.SessionIsUpdated | apps/vscode-extension/src/agent_tracker.ts:99-299 | in a serial run the active session bears the time of the last edit, change on disk or start that touched it |
| ChangeTracker.TimerIsSetExactlyWhen | apps/vscode-extension/src/agent_tracker.ts:158-238 | a workspace has a timer exactly from a save or a gathered edit in it until it fires, everything is discarded, or a review takes its change |
| ChangeTracker.StepKeepsTimers | apps/vscode-extension/src/agent_tracker.ts:173-238 | after every event every workspace with a heuristic change has a timer and only one such change |
| ChangeTracker.StepKeepsInv | apps/vscode-extension/src/agent_tracker.ts:116-255 | every orderly event keeps every change settled or in exactly one of heuristic, queue, active and being recorded |
| ChangeTracker.RunsConserve | apps/vscode-extension/src/agent_tracker.ts:116-255 | the same after every run of edits, timers, reviews, recordings, discards and orderly starts and stops |
| ChangeTracker.SerialRunsAreOrderly | apps/vscode-extension/src/agent_tracker.ts:80-133 | every event is orderly whenever no two starts or stops overlap and nothing fails after a recording |
| ChangeTracker.CountKeptExactlyWhen | apps/vscode-extension/src/agent_tracker.ts:108-133 | an enabled event keeps every change settled or in exactly one place if and only if it is orderly, or the end of a late stop that settles what is settled or takes it off the queue |
| ChangeTracker.RunsConserveExactlyWhen | apps/vscode-extension/src/agent_tracker.ts:108-133 | over every run, every change is always settled or in exactly one place if and only if every event is orderly or such an end |
| ChangeTracker.OverlappingStopsLoseASession | apps/vscode-extension/src/agent_tracker.ts:116-121 | a run of two overlapping stops after which a session is in no place |
| ChangeTracker.ReviewRecords | apps/vscode-extension/src/agent_tracker.ts:135-252 | a queued change that a review records is settled and leaves the queue, whatever fails behind the recording; one whose recording fails stays |
| ChangeTracker.FailedRecordIsQueued | apps/vscode-extension/src/agent_tracker.ts:124-131 | a record that fails in a stop leaves the session in the queue, once, and nowhere else |
| ChangeTracker.Tracker.OnChange | apps/vscode-extension/src/agent_tracker.ts:173-208 | the handler of an edit does what the event does: baseline, capture guards, session or heuristic change |
| ChangeTracker.Tracker.OnTimerFires | apps/vscode-extension/src/agent_tracker.ts:218-226 | a timer that fires moves the change of its workspace to the queue |
| ChangeTracker.Tracker.FinalizeHeuristics | apps/vscode-extension/src/agent_tracker.ts:229-238 | a review moves all heuristic changes to the queue in order and clears their timers |
| ChangeTracker.Tracker.Remove | apps/vscode-extension/src/agent_tracker.ts:252-255 | the first change with the id leaves the queue, the others keep their order |
| ChangeTracker.Tracker.DiscardEverything | apps/vscode-extension/src/agent_tracker.ts:158-164 | queue, heuristic changes and timers are emptied, the active session is not |
| ChangeTracker.Tracker.OnDiskChange | apps/vscode-extension/src/agent_tracker.ts:290-299 | the active session notes the path and whether it was created or deleted |
| ChangeTracker.Tracker.ReadPath | apps/vscode-extension/src/agent_tracker.ts:305-312 | one round reads the next dirty path: skipped without a text before or after, merged into the files otherwise |
| ChangeTracker.Tracker.Materialize | apps/vscode-extension/src/agent_tracker.ts:301-315 | the loop over the dirty paths is that many rounds, if nothing comes in between |
| ChangeTracker.Tracker.FinishStop | apps/vscode-extension/src/agent_tracker.ts:121-132 | the session read is cleared, and settles, is recorded or is queued |
| ChangeTracker.Tracker.FinishRecord | apps/vscode-extension/src/agent_tracker.ts:124-131 | a recording that is done takes the change off the queue; any error, also one of the callback behind it, makes a stop queue its session |
| EmbeddingCache.BoundedEmbeddingCache.Get | src/core/create_memory.ts:213-224 | a hit moves its entry to the end, a miss appends one and drops the oldest beyond the capacity, capacity zero keeps none |
| EmbeddingCache.BoundedEmbeddingCache.Evict | src/core/create_memory.ts:224 | only the newest entries, as many as the capacity, stay |
| EmbeddingCache.BoundedEmbeddingCache.LoadFailed | src/core/create_memory.ts:228-231 | a failed load removes the entry of its key exactly if that entry is of this load |
| EmbeddingCache.GetJoinsOrStarts | src/core/create_memory.ts:213-224 | a call for a key that the cache holds waits for the load there is and starts none; any other starts exactly one and waits for it |
| EmbeddingCache.LoadsExactlyWhen | src/core/create_memory.ts:213-224 | as long as nothing throws, a call starts a load exactly for a key that is not among the most recently used ones, as many as the capacity |
| EmbeddingCache.EveryCallIsAnswered | src/core/create_memory.ts:213-232 | in every interleaving, of each key as many calls were made as wait and have been answered |
| EmbeddingCache.CacheInvariant | src/core/create_memory.ts:213-232 | after every interleaving: at most the capacity, distinct keys by last use, and a failed load still in the cache has its owner waiting |
| EmbeddingCache.FailureSparesOtherLoads | src/core/create_memory.ts:228-231 | in every interleaving a caller that goes on after a failure removes no entry but that of its own load |
| EmbeddingCache.EvictsLeastRecentlyUsed | src/core/create_memory.ts:224 | in every interleaving what a get pushes out was used before everything that stays |
| EmbeddingCache.HoldsMostRecentKeys | src/core/create_memory.ts:216-224 | as long as nothing throws the cache holds exactly the most recently used distinct keys, in order |
| EmbeddingCache.AnswersAreOfTheKey | src/core/create_memory.ts:213-232 | whatever the loads of a key may come to, vectors, nothing or exceptions, the callers of the key get one of these |
| EmbeddingCache.AnswersAreUncached | src/core/create_memory.ts:213-232 | if loads of a key always come to the same, also to an exception, that is what every caller of the key gets, at every capacity |
| ImportWorlds.CreateWorlds | src/core/create_memory.ts:582-605 | terminates; creates parents first; fails as unresolved or cyclic exactly when some chain of parent keys never ends; with distinct keys and free ids for worlds not there yet, every planned world gets the id of the first stored world with its key, or else the one minted for it; every world there stays and every new one hangs under the planned world it names, or the stored one, or else the first root; a plan of known worlds changes nothing |
| ImportWorlds.PutKeepsAllExactlyWhen | src/core/worlds/recursive_world.ts:145-171 | setting a world keeps all worlds exactly when its id is not taken, or by the very same world |
| ImportWorlds.StuckIsUngrounded | src/core/create_memory.ts:586-587 | where no pending world is ready, none of them has a chain of parents that ends |
| ImportWorlds.SolutionIsUnique | src/core/create_memory.ts:588-604 | the equations of a plan have only one solution on every grounded world |
| ImportWorlds.ListingOrderIsIrrelevant | src/core/create_memory.ts:585-604 | plans of the same worlds in any order get the same ids |
| ImportActions.ResolveActions | src/core/create_memory.ts:667-709 | succeeds exactly when no action fails, and then gives every action an edge from its replacement to its target |
| ImportActions.OneTombstonePerExternalId | src/core/create_memory.ts:668-691 | exactly one tombstone for every external id with a deletion that names no planned node, none for others |
| ImportActions.EdgesAre | src/core/create_memory.ts:667-709 | every action that resolves leaves one edge, from the planned node it names or else the tombstone of its external id, to its target; an end that is the key of a planned node is that node |
| ImportActions.DeletionLeavesOneTombstone | src/connectors/plan_helpers.ts:111-118 | a deletion plan resolves exactly when its first prior node exists or there is none, with one tombstone that supersedes every prior node |
| ImportActions.UpdateSupersedesAll | src/connectors/plan_helpers.ts:105-109 | an update plan resolves exactly when its root node is planned or nothing is superseded; the root node supersedes every prior node |
| DomainPlans.Map | src/connectors/domain_mapper.ts:24-172 | the five mappers: the worlds on one or two levels, the root, a node and an edge for each comment, transition, reply, page or parent with a text, and what finishing appends |
| DomainPlans.PlanIsClosed | src/connectors/domain_mapper.ts:24-172 | whatever the payload and the mapper, the worlds can be created, one of them at the top, every node lies in the innermost one, every edge joins two nodes of the plan, contracts and groundings are those of the nodes, and every supersession names a node of the plan |
| DomainPlans.PartsArePlanned | src/connectors/domain_mapper.ts:58-170 | every comment, transition, reply and page with a text and every parent is planned as a node in the world of the document |
| DomainPlans.WorldIsSharedExactlyWhen | src/connectors/domain_mapper.ts:41-160 | two documents go to one world exactly when one mapper finds one project, channel, thread, file or collection, whatever the workspace or mailbox |
| DomainPlans.RootKeyIsSharedExactlyWhen | src/connectors/domain_mapper.ts:42-161 | the roots of two documents have one key exactly when both are PDFs, or of one mapper and one external id |
| DomainPlans.PartsAreLinkedExactlyWhen | src/core/create_memory.ts:611-656 | once imported, every part of a kind is joined to its root by an edge of its own exactly when no two different texts of the kind share a label or index |
| DomainPlans.CommentLosesItsEdge | src/connectors/domain_mapper.ts:64-67 | the comment with id 1 before one at index 1 without an id: no edge joins the first |
| DomainPlans.PageLosesItsEdge | src/connectors/domain_mapper.ts:147-150 | two pages whose labels are not numbers, or page 2 before a second page without a number: no edge joins the first |
| DomainPlans.UpdateSupersedesPrior | src/connectors/domain_mapper.ts:29-31 | the supersessions of an update always resolve against the nodes of its own plan, without a tombstone, each in an edge from the root's own node to a node of the item before |
| DurableGraph.TrackedWriteKeepsRestored | src/core/memory/durable_graph.ts:206-217 | a write that is tracked does not change what a rollback restores |
| DurableGraph.RollbackSparesOtherExactlyWhen | src/core/memory/durable_graph.ts:185-196 | a rollback leaves what another checkpoint restores exactly when it changes no key the other has not logged |
| DurableGraph.RollbackKeepsRestorableExactlyWhen | src/core/memory/durable_graph.ts:185-196 | the same for all open checkpoints at once |
| DurableGraph.Graph.AddNode | src/core/memory/durable_graph.ts:90-106 | refused exactly when unverified or another content holds the id; idempotent otherwise; every open checkpoint still restores |
| DurableGraph.Graph.ApplyNodeVersion | src/core/memory/durable_graph.ts:109-122 | replaces the node unless its content changed or does not verify; every open checkpoint still restores |
| DurableGraph.Graph.AddEdge | src/core/memory/durable_graph.ts:124-137 | refused exactly when an edge of other ends or kind holds the id; every open checkpoint still restores |
| DurableGraph.Graph.Checkpoint | src/core/memory/durable_graph.ts:175-179 | a new checkpoint that restores the contents of now |
| DurableGraph.Graph.Commit | src/core/memory/durable_graph.ts:181-183 | closes the checkpoint and changes nothing else |
| DurableGraph.Graph.Rollback | src/core/memory/durable_graph.ts:185-196 | the contents are those of the checkpoint; the others still restore exactly when the younger ones are spared |
| DurableGraph.AppliesExactlyWhen | src/core/memory/durable_graph.ts:109-122 | a list of versions applies exactly when each is verified and keeps the content of the node it replaces and of the versions of its id before it |
| DurableGraph.AppliedAre | src/core/create_memory.ts:323-341 | a list that is applied leaves of every id its last version, and every other node as it was |
| DurableGraph.CommitNodeVersions | src/core/create_memory.ts:323-341 | all versions are applied, or the graph is as before, exactly when one is refused or persisting fails |
| DecayPaging.CandidatesAre | src/core/create_memory.ts:774-777 | the candidates are exactly the nodes in scope behind the cursor, in id order |
| DecayPaging.Memory.RunDecay | src/core/create_memory.ts:761-798 | out of range or failing calls change nothing; otherwise the report and the nodes of one cycle |
| DecayPaging.CycleDecays | src/core/create_memory.ts:779-794 | a node changes only if it is in the batch, into its decay, and with activation or rate moved by at least the least change; one in the batch that is not its decay afterwards is nearer to it than that in both; exactly these changes are listed, and with a least change of zero the nodes that decay leaves alone |
| DecayPaging.NextPage | src/core/create_memory.ts:776-794 | after a cycle that is not complete, what is behind its cursor is exactly the rest of the candidates, unchanged |
| DecayPaging.Memory.DecayAll | src/cli/commands/maintenance/decay.ts:35-41 | the loop terminates, whatever calls fail, with the cycles and the nodes of the attempt, and in an error exactly if that fails |
| DecayPaging.AttemptSucceeds | src/cli/commands/maintenance/decay.ts:35-41 | in range and with commits that succeed the attempt is the paged run |
| DecayPaging.FailureKeepsPages | src/core/create_memory.ts:776-787 | a run that ends in an error leaves the nodes behind the cursor it has reached as they were, and all others as one full scan leaves them |
| DecayPaging.FailedRunGoesOn | src/cli/commands/maintenance/decay.ts:34-41 | after a failed attempt the rest can be paged, and the cycles of the attempt and of the run that goes on from its cursor, and the nodes in the end, are those of the whole run |
| DecayPaging.PagingIsOneScan | src/cli/commands/maintenance/decay.ts:35-51 | together the cycles scan every candidate once in order, move and count what one full scan would |
| DecayPaging.PagingSweeps | src/core/create_memory.ts:773-787 | every node in scope behind the cursor ends in the version one full scan gives it: its decay if that moves it by at least the least change, and only then; every other is untouched |
| DecayPaging.PagingCalls | src/cli/commands/maintenance/decay.ts:37-41 | the run takes as many calls as there are pages |
| DecayPaging.PageCountIsLeast | src/core/create_memory.ts:777-788 | the pages are the fewest, but at least one, that hold the candidates |
| DecayPaging.TierTotals | src/core/create_memory.ts:778-783 | the count of each tier is that of the nodes that fall into it once decayed, and together they are what was scanned |
| DecayPaging.SweepEndsExactlyWhen | src/cli/commands/maintenance/decay.ts:37-41 | the loop ends complete exactly when no page ends in an empty id |
| DecayPaging.EmptyIdEndsTheSweep | src/cli/commands/maintenance/decay.ts:41 | two nodes in pages of one, the first with an empty id: the loop ends after one cycle, which is not complete |
| BenchmarkRun.ProviderRun.Attempt | benchmarks/src/runner.ts:267-288 | a phase is completed exactly when saving and its work succeed, and is left running otherwise |
| BenchmarkRun.ProviderRun.Prepare | benchmarks/src/runner.ts:251-274 | reuse completes both phases without a call; otherwise reset, ingest and indexing, and the active corpus changes only if all succeed |
| BenchmarkRun.ProviderRun.RunCase | benchmarks/src/runner.ts:237-360 | a case leaves the record its first failing phase determines, and the provider state |
| BenchmarkRun.ProviderRun.RunCases | benchmarks/src/runner.ts:231-362 | the loop over the cases, with resume, and left by the exceptions it does not catch |
| BenchmarkRun.ProviderRun.RunProvider | benchmarks/src/runner.ts:214-383 | the report of a provider and the records it leaves |
| BenchmarkRun.CallsDecide | benchmarks/src/runner.ts:251-360 | a phase is completed exactly when no call of its own or of the phases before it throws, and failed exactly when a call of its own is the first to; a reused corpus takes no call for ingest and indexing, and without language models nothing is answered or judged |
| BenchmarkRun.CallsDecideCorpus | benchmarks/src/runner.ts:251-274 | a case that does not find its corpus active makes it active, and held, exactly when no call of its ingest and indexing throws |
| BenchmarkRun.AbortsExactlyWhen | benchmarks/src/runner.ts:231-362 | the loop is left by an exception exactly when a case that is not skipped cannot show its progress or save its end |
| BenchmarkRun.CallsDecideReport | benchmarks/src/runner.ts:207-382 | from any checkpoint, what is reported by what the calls do: completed if nothing is left or every case goes through, unavailable for its health alone, failed if it does not start, breaks off or completes no case, and partial otherwise |
| BenchmarkRun.EveryCaseIsRecorded | benchmarks/src/runner.ts:232-362 | after the loop every case has the record it was resumed with if that was completed, otherwise that of running it |
| BenchmarkRun.RecordIsShaped | benchmarks/src/checkpoint.ts:71-92 | completed phases, then at most one failed, then pending ones |
| BenchmarkRun.TerminalIsLast | benchmarks/src/runner.ts:234-235 | in such a record the terminal phase is completed exactly when all phases are |
| BenchmarkRun.ResumeKeepsCompleted | benchmarks/src/runner.ts:235 | whatever fails, a resumed run leaves a completed case as it is |
| BenchmarkRun.ReportedExactlyWhen | benchmarks/src/runner.ts:363-371 | completed exactly when the terminal phase of every case is, failed exactly when that of none is |
| BenchmarkRun.ResumeFinishes | benchmarks/src/runner.ts:218-371 | from any checkpoint a run in which no call fails is reported completed |
| BenchmarkRun.ContiguousReuseIsSafe | benchmarks/src/runner.ts:251-274 | with contiguous corpora every reuse is of the corpus the provider has held since its last reset |
| BenchmarkRun.BrokenReuse | benchmarks/src/runner.ts:251-274 | where a corpus id does not stand together some run reuses what the provider no longer holds |
| BenchmarkRun.ReuseIsSafeExactlyWhen | benchmarks/src/runner.ts:231-274 | reuse is safe in all runs and from all checkpoints exactly for contiguous corpora |
| BenchmarkRun.SortedIsOrdered | benchmarks/src/runner.ts:193 | the sort by dataset and corpus id orders the cases and keeps them |
| BenchmarkRun.RunnerReuseIsSafeExactlyWhen | benchmarks/src/runner.ts:193-274 | in the runner's order reuse is safe in all runs exactly when no corpus id is shared by two datasets |
| RankingMetrics.ScoreAtK | benchmarks/src/metrics.ts:91-117 | the pass over the top hits computes the metrics of the first useful hits |
| RankingMetrics.MetricsAre | benchmarks/src/metrics.ts:91-117 | precision, recall and hit rate are those of the evidence found up to the cutoff, and the reciprocal rank that of the first hit that names any |
| RankingMetrics.FoundIsSeen | benchmarks/src/metrics.ts:96-103 | the useful hits are as many as the different evidence events found |
| RankingMetrics.DcgAtMostIdeal | benchmarks/src/metrics.ts:89-107 | the gain is at most that of as many useful hits in front, and equal only for that |
| RankingMetrics.NdcgIsNormalized | benchmarks/src/metrics.ts:106-115 | nDCG is between 0 and 1, and 1 exactly when there is evidence and the first hits, as many as evidence and cutoff allow, are all useful |
| RankingMetrics.EarlierIsBetter | benchmarks/src/metrics.ts:89 | moving a gain to an earlier rank raises the gain |
| RankingMetrics.RecallGrows | benchmarks/src/metrics.ts:103-114 | recall, hit rate and reciprocal rank never fall as the cutoff grows |
| RankingMetrics.F1IsBetween | benchmarks/src/metrics.ts:113 | F1 lies between precision and recall |
| RankingMetrics.F1IsDice | benchmarks/src/metrics.ts:113 | F1 is twice the found hits over hits and evidence together |
| Latency.PercentileGrows | benchmarks/src/metrics.ts:166-175 | a higher rank never gives a lower percentile |
| Latency.PercentileInterpolates | benchmarks/src/metrics.ts:166-175 | between two sorted samples the percentile is on the line through them, by how far the rank is from the first |
| Latency.SquaresAre | benchmarks/src/metrics.ts:180 | the sum of squared differences is that of the squares, less twice the mean times the sum, plus the count times the squared mean |
| Latency.PercentileIgnoresOrder | benchmarks/src/metrics.ts:169 | a percentile does not depend on the order of the samples |
| Latency.PercentileEnds | benchmarks/src/metrics.ts:166-175 | rank zero is the minimum, rank one the maximum |
| Latency.Latency | benchmarks/src/metrics.ts:177-191 | count, extremes, mean, percentiles and the standard deviation, the nonnegative root of the mean square, with min <= p50 <= p95 <= p99 <= max and min <= mean <= max |
| Latency.SumIgnoresOrder | benchmarks/src/metrics.ts:179 | the mean does not depend on the order of the samples |
| Sampling.UniqueIs | benchmarks/src/datasets/public.ts:72 | one case of the category for every corpus it has |
| Sampling.RotationPermutes | benchmarks/src/datasets/public.ts:75 | the rotation is a permutation with distinct corpora |
| Sampling.SampleIsWindow | benchmarks/src/datasets/public.ts:68-83 | without staggering the sample holds of every category the window of its corpora at the offset |
| Sampling.SamplesAreApartExactlyWhen | benchmarks/src/datasets/public.ts:72-79 | a sample and the next one share no corpus of a category exactly when the category has enough corpora for both |
| Sampling.SamplesCover | benchmarks/src/datasets/public.ts:72-79 | samples one after the other come to every corpus of every category, within one turn of its corpora |
| Sampling.UnusedComeFirst | benchmarks/src/datasets/public.ts:76-79 | staggered, a used corpus is chosen only once all unused ones are |
| Sampling.StartMoves | benchmarks/src/datasets/public.ts:74 | a category starts at the offset, or, staggered, one window further on than the category before it |
| Sampling.StaggeredSampleIs | benchmarks/src/datasets/public.ts:71-80 | staggered, a category gives the corpora of its rotation not yet given, then the others, as many as asked for |
| Sampling.SampleByCategory | benchmarks/src/datasets/public.ts:68-83 | the loop over the categories collects what each gives, with the corpora used before it |
| Sampling.SampleIsFair | benchmarks/src/datasets/public.ts:68-83 | of every category as many cases as asked for, or one for each of its corpora, of different corpora |
| ConnectorSync.Connector.Sync | src/core/connectors/connector_ingest.ts:55-115 | the events of the run and the cursor that the applied ones leave, taken in while the listing is read |
| ConnectorSync.OneEventPerItem | src/connectors/adapter_connector.ts:67-92 | exactly one event for every item listed or live in the cursor |
| ConnectorSync.EventKindsAre | src/connectors/adapter_connector.ts:67-92 | the first events are those of the listing in its order: created where the cursor knows nothing, unchanged where it has the checksum of the document or the one listed, updated otherwise; all others are deletions of live items not listed |
| ConnectorSync.FullRunCreates | src/core/connectors/connector_ingest.ts:59 | a full run calls every listed item created, with the checksum of its document, and nothing else |
| ConnectorSync.RunIs | src/connectors/adapter_connector.ts:67-92 | what a run leaves for an item depends only on its own entry, its listing and whether its plan is applied |
| ConnectorSync.ReplayIsExactExactlyWhen | src/connectors/adapter_connector.ts:67-92 | replayed, the live entries are exactly the documents of the listing unless, and only unless, a deleted item is listed again with its checksum or a shortcut is taken for a document that has moved on |
| ConnectorSync.FullRunIsExact | src/core/connectors/connector_ingest.ts:59 | a full run leaves exactly the documents of the listing as live entries, whatever checksums are listed |
| ConnectorSync.OrphanIsNeverDeleted | src/core/connectors/connector_ingest.ts:59 | an item no longer listed when a full run starts from an empty cursor, whatever the cursor held of it before, gets no event in that run or any later one while it stays unlisted |
| ConnectorSync.RelistedStaysDeleted | src/connectors/adapter_connector.ts:74-78 | the item listed again: unchanged, and still deleted |
| ConnectorSync.StaleShortcutKeepsOldChecksum | src/connectors/adapter_connector.ts:74-77 | the item whose document has moved on from its listed checksum: unchanged, with the old checksum |
| ConnectorSync.SecondRunIsQuiet | src/connectors/adapter_connector.ts:74-92 | after a run in which every plan applies, a further run calls every listed item unchanged, nothing else, and leaves the cursor, whatever checksums are listed |
| ConnectorSync.RetryConverges | src/core/connectors/connector_ingest.ts:76-111 | whatever plans fail, a further run in which none does leaves the cursor one such run would have left |
| ConnectorSync.ShortcutKeepsRunExactlyWhen | src/connectors/adapter_connector.ts:74-80 | the shortcut leaves the events and the cursor of the whole run as fetching everything would exactly when no shortcut is stale |
| ConnectorSync.ShortcutKeepsCursorExactlyWhen | src/connectors/adapter_connector.ts:74-80 | it leaves the cursor so, whatever plans fail, exactly when no stale shortcut misses an update that would be applied |
| ProjectScope.Resolve | src/cli/context/project_scope.ts:27-50 | the first root of the project with exactly the worlds it reaches along parent links, or the two ways there is none |
| ProjectScope.Collect | src/cli/context/project_scope.ts:42-48 | the descent terminates, also on cycles, with exactly what is reached |
| ProjectScope.ScopesNestOrSeparate | src/cli/context/project_scope.ts:35-50 | two scopes share a world only if one root lies in the other's scope |
| Clustering.QuotaLeavesEnough | dashboard/lib/memory-ai-engine.ts:932 | a quota takes at least one and leaves a memory for every cluster behind it |
| Clustering.Seed | dashboard/lib/memory-ai-engine.ts:904-920 | there always is a seed: the first of the densest memories not assigned |
| Clustering.DensityIs | dashboard/lib/memory-ai-engine.ts:910-913 | the density of a memory with a vector is the sum of its similarities to all vectors not assigned, and nothing for one without |
| Clustering.Grow | dashboard/lib/memory-ai-engine.ts:922-937 | the seed with the nearest candidates, as many as the quota and the candidates allow |
| Clustering.AlignedExactlyWhen | dashboard/lib/memory-ai-engine.ts:895-896 | every vector stands at the index of a memory with its content exactly when the first contents, as many as vectors, are pairwise different |
| Clustering.AllHaveVectorsExactlyWhen | dashboard/lib/memory-ai-engine.ts:336-896 | every memory has a vector at its index exactly when all contents are different |
| Clustering.NearestAreTaken | dashboard/lib/memory-ai-engine.ts:925-937 | where the vectors stand at their memories, no memory with a vector that is left outside is more like the seed than one that joins |
| Clustering.RepeatedContentMisplaces | dashboard/lib/memory-ai-engine.ts:896-937 | contents a, a, b, c: the memory of b joins the cluster of the first a before the second a, which is the same |
| Clustering.Cluster | dashboard/lib/memory-ai-engine.ts:875-973 | nonempty disjoint clusters, one each if memories are few, otherwise as many as allowed with at least one memory dropped, exactly one if contents differ |
| Clustering.Merge | dashboard/lib/memory-ai-engine.ts:997-1037 | every input cluster lands in exactly one output, the members are conserved, and no output's base is similar to an earlier one's |

## Left out

- Everything behind HTTP, SQLite, subprocesses, files and the editor's own calls: only whether a call succeeds is modelled.
- Decay formulas, ingestion, edge insertion and the vector index of the engine: parameters with the property named where they are used.
- Of the domain mappers: entities, provenance, times of edges, and how the texts, names and labels are read from a payload; a document that is missing, which is an error.
- The semantic graph builder, retrieval heuristics, intent and discourse patterns, answer assembly and prompts: no specification to prove against.
- Secret paths and credential lines: predicates; what they match is a pattern table.
- The digits of hunk headers and the text of the change header: the header is its four numbers, the change header any text.
- Float rounding, `log2`, how a square root is computed, and SHA-256.
- Partial listings (`limit`, `since`, `kinds`) of a sync: unseen items would be reported deleted; and a fetch that throws, which ends the run with the cursor of the plans applied so far. A dry run applies no plan.
- The final sort of clusters by coherence and importance, and their labels: the clusters are proved in the order they are made.
- ChangeTracker.Tracker.ReadPath: one path is read in one step; an event that comes while the text of that path is fetched counts as before or after it. Events between two paths are modelled.
- DomainPlans.PartsAreLinkedExactlyWhen: takes the ids of nodes with other keys or texts to differ; the source cuts keys to 160 characters and checksums to 16.
- ChangeTracker.RunsConserve: covers runs before the tracker is disposed, and ids that are new; two changes of one agent in the same millisecond would share an id.
- BenchmarkRun.ProviderRun.RunCase: the calls of one phase for several cutoffs are one call that succeeds or fails; token counts, timings and scores of a record are not kept.
- EmbeddingCache.AnswersAreUncached: an answer is the vector as a value; that every caller gets a copy of its own is not captured.
- DurableGraph.CommitNodeVersions: the checkpoint of the vector index beside that of the graph is not modelled.
- ImportActions.ResolveActions: a target that is missing is found only where a tombstone is made for it; inserting the edges is the engine's.
- ImportWorlds.CreateWorlds: an empty parent key that names a planned world is met as ready by that world, yet attaches to the named or root parent, as the code does.
