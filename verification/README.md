# Memory engine: a verified model

This project models the distributed and cross-store core of the memory engine in Dafny and proves what its code
promises. It covers

- the vote-based leader election, over every interleaving of campaigns, votes and lost messages;
- replication of the write-op log to followers, over every mix of appends, batches, prunings and failing backend
  calls, and what redelivery does;
- the engine's operations over two stores (rows, merge log and write-op log in one database, vectors in another):
  commit, delete, recycle, promote, merge, late extraction, reconcile and unmerge, with every call they make allowed
  to fail, and which memories a merge pass merges into which;
- when a follower that replays the log has the leader's rows: call by call, for whole phases, and over runs of leader
  and followers together;
- the follower's sync loop, the follow, campaign, promote orbit around it, and what a follower holds after many lives;
- the bounded-hop graph query and graph affinity, retrieval ranking and budget, the embedding cache, the card
  number check, the namespace predicate and the frame stream.

Objects that the code updates in place are classes here (`Election.Node`, `Replay.Sink`, `WopTable.Table`,
`Engine.MemoryEngine`, `FollowerLoop.Follower`, `Orbit.FollowerOrbit`, `Lru.LruCache`, `Frames.Connection`,
`Retrieval.Persist`); their methods are proved equal to functions of the state before, and the lemmas are about those
functions. The leader steps of the convergence runs are these operations with succeeding calls (`SagaActions`). Calls
that may fail take their outcome as a parameter (`Calls`, `TurnRun`, `Backend`, ...), so every theorem holds for every
pattern of failures that its preconditions admit.

Several promises hold only under a condition. There the code is kept as it is and the condition is proved exact:

- Two nodes can be in state leader with the same current term, because the closing lock of a campaign does not look
  at the term again (`TwoLeadersShareACurrentTerm`); at most one campaign wins a term all the same
  (`ElectionSafety`), and `CloseKeepsLeadersIff` says when state and term agree.
- A merge whose vector cannot be deleted is recorded like any other, and then two memories can be merged into each
  other (`FailedDeleteLosesBoth`). While every merged memory leads to a live one, one more merge keeps it so exactly
  when its target does not already lead back to its source (`MergeKeepsSurvivalIff`); over a whole pass with any
  failures this and no half-merged target is the exact condition (`PassSurvivesIff`, `UndonePassSurvivesIff`).
- Late extraction at the end of a consolidation writes memories back as they were read at its start. Merges of the
  same run are safe from it, because a memory that waits for its entities has none and is not merged
  (`PendingHasNoEntities`, `MergedStayMerged`). But a memory recycled in the same run comes back live and without its
  vector (`ReextractRevivesRecycled`), and one promoted loses its new tier: late extraction is harmless exactly when
  it rewrites no memory that the run recycled or promoted (`LateExtractionIsHarmlessIff`, `RecycledStaysRecycledIff`).
- Every merge stays reversible over all runs of the engine, whatever calls fail (`MergesStayReversible`). But an
  unmerge takes its log row away first: if a later call then fails, the next reconcile deletes the memory
  (`UnmergeSurvivesReconcileIff`). And it is not logged, so followers keep the memory tombstoned
  (`UnmergeInStepIff`).
- A reconcile is not logged either. Followers keep the tombstoned rows it removes, so from then on they have the
  leader's live rows and not exactly its rows (`ReconcileInStepIff`, `LeaderAndFollowersConverge`).
- What a node has recorded of a log may come from a heartbeat. Only then can it later ask for votes with less
  (`OwnCandidateMayLagItsRecord`, `SteadyCrossTermLogOrder`).
- Reconcile compares every stored vector with the live rows of one tenant and namespace: live rows of other tenants
  and of namespaces it does not show lose their vectors (`OutOfScopeRowsLoseTheirVectors`).
- A promotion writes back a row read earlier, the follower only sets the tier (`PromoteConvergesIff`). A delete or
  recycle whose log append fails leaves the follower behind (`DeleteInStepIff`, `RecycleInStepIff`). For the phases of
  a consolidation the conditions are those of the calls made (`UpkeepPassInStepIff`, `MergePassInStepIff`,
  `ReextractPassInStepIff`). Ids that hold a tab do not parse back (`PromoteParsesIff`, `MergeParsesIff`).
- A lost campaign resumes the follower at the end of its own log instead of its cursor, which can make it skip the
  leader's entries for good (`LostCampaignSkipsCommit`). Nothing is lost exactly when the position is at or before the
  cursor (`ResumeLosesNothingIff`), over whole orbits too (`CaughtUpOrbitHasTheLog`). The same condition decides about
  a follower's first start, which is at the end of its own log as well (crates/fm-server/src/cluster.rs:88-91).
- The cache evicts some entry with the least instant. That is right for every history exactly when the victim has
  expired or the least instant has one holder (`ExcusedForEveryHistoryIff`). With a tie the key used last may go
  (`TiesBreakTheGuarantee`).
- Scores are folded into a maximum that starts at 0 (`BestIsMaximumIff`). The comment at
  crates/fm-persist/src/store.rs:18 says that cutting a query at 256 rows loses no precision. A cut may lose an
  entity's whole contribution (`CutLosesAContribution`), but never yields a wrong one; every answer is exact if and
  only if fewer than 256 other entities are as near as the nearest candidate (`CutIsHarmlessIff`).

`dafny verify dfyconfig.toml` checks the whole project.

## Model

| member | source | states |
|---|---|---|
| Election.GrantIffCriteria | crates/fm-cluster/src/election.rs:211-290 | the handler grants exactly if the token is right or none is configured, the term is not old, the log not behind, and no other candidate has the vote of that term; a grant is for the request's own term |
| Election.TokenGates | crates/fm-cluster/src/election.rs:216-227 | a request with a wrong token is denied and changes nothing; with the right one the node does what it does without a token |
| Election.VoteStepMonotone | crates/fm-cluster/src/election.rs:211-290 | terms and recorded log positions never go back and a vote is changed only by a higher term |
| Election.ConstantTimeEq | crates/fm-cluster/src/election.rs:404-415 | the byte-wise comparison is equality |
| Election.Node.HandleVote | crates/fm-cluster/src/election.rs:211-290 | a wrong token leaves state and lease alone; otherwise term, state, vote, recorded position and answer are spelled out for granted and denied requests; only a grant renews the lease |
| Election.Node.BeginCampaign | crates/fm-cluster/src/election.rs:294-317 | opening a campaign bumps the term, votes for itself and asks for that term |
| Election.Node.PollPeers | crates/fm-cluster/src/election.rs:318-342 | the count is the own vote plus the number of peers whose reply grants; unreachable peers add nothing |
| Election.Node.Decide | crates/fm-cluster/src/election.rs:343-358 | a campaign is won exactly when more than half of the configured nodes granted; only then the node is leader and its lease fresh |
| Election.Node.RefreshLease | crates/fm-cluster/src/election.rs:370-374 | a heartbeat renews the lease and only moves the recorded position forward |
| Election.Node.LeaseExpired | crates/fm-cluster/src/election.rs:361-367 | a node gives the leader up exactly when it is none itself and the last heartbeat is older than the lease |
| ElectionRuns.SharedVoter | crates/fm-cluster/src/election.rs:60-62 | two winning campaigns share a voter |
| ElectionRuns.CampaignAsksForItself | crates/fm-cluster/src/election.rs:294-317 | a campaign that opens asks for the node's next term in its own name, with the position just reported and its token |
| ElectionRuns.StepInv | crates/fm-cluster/src/election.rs:211-358 | every step keeps one vote per node and term, truthful replies and counts, and the order of log positions along a node's votes |
| ElectionRuns.ElectionSafety | crates/fm-cluster/src/election.rs:211-358 | over every interleaving at most one campaign wins a term |
| ElectionRuns.CrossTermLogOrder | crates/fm-cluster/src/election.rs:261-317 | winners of two terms share a voter, and unless it ran the later campaign the later candidate's log reaches what it had recorded when it voted earlier |
| ElectionRuns.TermsAndPositionsNeverDecrease | crates/fm-cluster/src/election.rs:211-358 | over every run terms and recorded positions never decrease |
| ElectionRuns.TermCounterFits | crates/fm-cluster/src/election.rs:294-300 | the 64-bit term counter cannot wrap before 2^64 campaigns |
| ElectionLeaders.CloseKeepsLeadersIff | crates/fm-cluster/src/election.rs:343-358 | closing a winning campaign keeps "every leader won its own current term" exactly when the node is still in the campaign's term |
| ElectionLeaders.OneLeaderPerCurrentTerm | crates/fm-cluster/src/election.rs:343-358 | when winning campaigns close in their own term, a current term has one leader |
| ElectionLeaders.TwoLeadersShareACurrentTerm | crates/fm-cluster/src/election.rs:343-346 | a run in which a late close makes two leaders share a current term |
| ElectionLogs.OwnCandidateMayLagItsRecord | crates/fm-cluster/src/election.rs:294-317 | the exception in the log order is needed: after a heartbeat ahead of its own log a candidate asks with less than it has recorded, and wins |
| ElectionLogs.SteadyCrossTermLogOrder | crates/fm-cluster/src/election.rs:261-317 | while own logs do not shrink and no heartbeat runs ahead of them, the later winner's log reaches what a shared voter had recorded, without exception |
| TextFormat.SplitJoinIff | crates/fm-cluster/src/replay.rs:130-176 | splitting a tab-joined payload gives the fields back exactly when no field holds a tab |
| TextFormat.DecimalRoundTrip | crates/fm-engine/src/engine.rs:245-253 | a printed vector id reads back as itself, a number beyond 64 bits does not read |
| TextFormat.PlusReads | crates/fm-engine/src/engine.rs:245-253 | a number with a plus sign reads as without |
| TextFormat.NoNumberDoesNotRead | crates/fm-engine/src/engine.rs:463-485 | a reference without digits or with another character does not read |
| Replay.StepMeaning | crates/fm-cluster/src/replay.rs:102-185 | a replayed entry has exactly its meaning, a failed one at most a partial effect, a permanent failure none |
| Replay.PartialAbsorbed | crates/fm-cluster/src/replay.rs:102-185 | retrying an entry on top of its partial effect is replaying it once |
| Replay.VectorsKept | crates/fm-cluster/src/replay.rs:102-126 | no entry changes a stored vector; only a commit adds one, under the reference of its item: the one it carries, or else the follower's own embedding |
| Replay.CarriedVectorStored | crates/fm-cluster/src/replay.rs:102-126 | a commit that carries a vector stores its item and exactly that vector, whatever the embedder answers |
| Replay.MissingVectorEmbedded | crates/fm-cluster/src/replay.rs:39-50 | without a carried vector, as in the older form, the follower's own embedding is stored; while the embedder is down nothing happens and the entry is tried again |
| Replay.PermanentIff | crates/fm-cluster/src/replay.rs:102-185 | exactly commits without a readable item or reference and late extractions without an item fail for good, and they change nothing |
| Replay.NamedRowTombstoned | crates/fm-cluster/src/replay.rs:127-136 | deletes and recyclings tombstone the row they name |
| Replay.NamedTierSet | crates/fm-cluster/src/replay.rs:137-151 | a promotion sets the tier it names on the row it names; an absent row is no error, an unknown tier is one |
| Replay.NamedMergeRecorded | crates/fm-cluster/src/replay.rs:152-169 | a merge tombstones its source and records source, target, reason and time; an unreadable time counts as 0 |
| Replay.RewrittenRowReplaced | crates/fm-cluster/src/replay.rs:170-177 | a late extraction replaces the row by the item it holds |
| Replay.SkippedIff | crates/fm-cluster/src/replay.rs:102-185 | exactly entries of unknown or malformed form are passed over, without a call |
| Replay.Sink.PutItem | crates/fm-engine/src/engine.rs:968-973 | the row is replaced by id, or nothing happens |
| Replay.Sink.StoreVector | crates/fm-engine/src/engine.rs:974-977 | a vector id already present keeps its vector |
| Replay.Sink.Tombstone | crates/fm-engine/src/engine.rs:978-984 | the row is tombstoned, or nothing happens |
| Replay.Sink.PromoteTier | crates/fm-engine/src/engine.rs:985-1011 | the tier is set on a row that is there; an unknown tier is an error, an absent row is not |
| Replay.Sink.RecordMerge | crates/fm-engine/src/engine.rs:1012-1024 | the fact is appended, or nothing happens |
| Replay.Sink.ReplayOne | crates/fm-cluster/src/replay.rs:102-185 | the dispatch over backend calls is the replay step, whose meaning for each form of entry the lemmas above state |
| Replay.Sink.ReplayWops | crates/fm-cluster/src/replay.rs:208-256 | the loop with early exit is the batch replay, with its counts, last number and failure kind |
| WopTable.SinceAfterDrop | crates/fm-persist/src/store.rs:682-713 | dropping entries at or below a position changes nothing listed after it |
| WopTable.SinceMembers | crates/fm-persist/src/store.rs:682-703 | listing answers exactly the entries after the position |
| WopTable.PruneInvisibleIff | crates/fm-persist/src/store.rs:706-713 | pruning is invisible to a follower exactly when it prunes nothing after its cursor |
| WopTable.Table.AppendWop | crates/fm-persist/src/store.rs:661-670 | a new entry gets a number larger than all ever given |
| WopTable.Table.LastWopSeq | crates/fm-persist/src/store.rs:673-679 | the largest stored number, 0 for an empty table |
| WopTable.Table.PruneWopBefore | crates/fm-persist/src/store.rs:706-713 | exactly the entries below the bound go, and their number is answered |
| Replication.BatchIsPrefix | crates/fm-cluster/src/replay.rs:208-256 | a batch finishes a prefix of its entries in order and touches at most the entry it stopped at; it counts as applied those of a known form and as skipped the others, and fails for good exactly at a broken entry |
| Replication.FetchIsNext | crates/fm-persist/src/store.rs:682-703 | what a follower is sent is the stretch of the log right after its cursor |
| Replication.StepInv | crates/fm-cluster/src/transport.rs:246-294 | appends, syncs with any limit and failures, and safe prunings keep every follower at the replay of a prefix with at most one partial entry |
| Replication.PrefixRefinement | crates/fm-cluster/src/transport.rs:246-294 | after any run a follower's rows, merge facts and vector ids are the replay of exactly the entries up to its cursor, up to the one entry being retried |
| Replication.NextBatchIsNext | crates/fm-persist/src/store.rs:682-713 | no entry is skipped, whatever was pruned |
| Redelivery.RewindKeepsCourse | crates/fm-cluster/src/replay.rs:102-185 | going back to an earlier entry never changes where replay ends |
| Redelivery.RewindReplaysAgain | crates/fm-server/src/cluster.rs:191-195 | after going back, the entry there is replayed again on top of what the stores hold |
| Redelivery.RedeliveryIdempotent | crates/fm-cluster/src/replay.rs:102-185 | replaying a suffix again changes neither rows, nor vector ids, nor the set of merge facts |
| Redelivery.RedeliveryGrowsMergeLog | crates/fm-engine/src/engine.rs:1012-1024 | as a list the merge log grows by the redelivered merges |
| Redelivery.CaughtUpIsExactlyOnce | crates/fm-cluster/src/replay.rs:208-256 | over any run of attempts, partial failures and rewinds, a follower that has passed everything it ever touched holds what one clean replay gives |
| OrbitRuns.RoundsKeepCourse | crates/fm-cluster/src/transport.rs:246-294 | any rounds fed by the leader's log, with failures, keep a follower on course to the log's replay and never move its cursor back |
| OrbitRuns.ResumeLosesNothingIff | crates/fm-server/src/cluster.rs:191-195 | for every log, every state a follower may be in and every later rounds, catching up after a resume gives the log's replay exactly when the resume is at or before the cursor |
| OrbitRuns.LostCampaignSkipsCommit | crates/fm-server/src/cluster.rs:191-195 | an orbit whose resume after a lost campaign skips the leader's only commit, however long it is fed afterwards |
| OrbitRuns.CaughtUpOrbitHasTheLog | crates/fm-server/src/cluster.rs:159-197 | through any number of lives whose resumes are at or before the cursors reached, a follower that has caught up holds what one clean replay of the log gives |
| Convergence.PromoteParsesIff | crates/fm-engine/src/engine.rs:835-840 | a promote payload parses back exactly for ids without tabs |
| Convergence.MergeParsesIff | crates/fm-engine/src/engine.rs:313-319 | a merge payload parses back exactly for ids without tabs, and the time reads back |
| Convergence.ActionConverges | crates/fm-engine/src/engine.rs:278-326 | a leader step from current data and its log entry change leader and follower alike; one that removes tombstoned rows leaves the follower with those as well |
| Convergence.CoveredIsSameLive | crates/fm-engine/src/engine.rs:524-546 | a follower that has the leader's rows, and beyond them only tombstoned ones, has the same live memories, with the same content, origin, visibility, type, tier, reference and time |
| Convergence.RemoveConvergesIff | crates/fm-engine/src/engine.rs:524-546 | removing tombstoned rows keeps the followers' rows equal exactly when there was nothing to remove |
| Convergence.PromoteConvergesIff | crates/fm-engine/src/engine.rs:823-842 | a promotion keeps them alike exactly when the row is still as it was read |
| Convergence.UndoneMergeConvergesIff | crates/fm-engine/src/engine.rs:288-312 | undoing a merge keeps them alike exactly when the source was not tombstoned before |
| Convergence.LeaderAndFollowersConverge | crates/fm-cluster/src/replay.rs:102-185 | over every run of current leader steps, reconciles included, leader and log replay have the same live memories, alike in everything but entities and accesses; without a removal they have the same rows |
| ConvergenceRuns.EventKeepsSound | crates/fm-cluster/src/transport.rs:246-294 | every leader action, sync and pruning keeps the followers at prefixes of the log and the leader at the replay of all of it |
| ConvergenceRuns.FollowerHoldsAFormerState | crates/fm-cluster/src/transport.rs:246-294 | at any time of any run of leader and followers a follower has the live rows of the leader as it was when the log ended at the follower's cursor, or one entry later while a merge is retried |
| ConvergenceRuns.CaughtUpFollowerAgrees | crates/fm-cluster/src/transport.rs:246-294 | a follower whose cursor has reached the last entry has the leader's live rows of now, and all its rows if the leader never removed one |
| SagaConvergence.CommitTurnsInStep | crates/fm-engine/src/engine.rs:648-761 | a commit keeps followers in step however its calls turn out |
| SagaConvergence.DeleteInStepIff | crates/fm-engine/src/engine.rs:1255-1285 | a delete leaves the follower behind exactly when a live row was tombstoned and the append failed |
| SagaConvergence.RecycleInStepIff | crates/fm-engine/src/engine.rs:799-822 | recycling keeps in step exactly when tombstone and append end alike or the row was gone |
| SagaConvergence.PromoteInStepIff | crates/fm-engine/src/engine.rs:823-843 | the exact condition for a promotion, logged or not |
| SagaConvergence.MergeInStepIff | crates/fm-engine/src/engine.rs:278-322 | the exact condition for a merge, recorded or undone |
| SagaConvergence.InStepMeans | crates/fm-engine/src/engine.rs:524-546 | being in step means having the same live memories, and having the same rows as long as the follower has none beyond the leader's |
| SagaConvergence.ReconcileInStepIff | crates/fm-engine/src/engine.rs:449-549 | a reconcile leaves followers in step whatever fails, and with the same rows exactly when it removes none |
| SagaConvergence.UnmergeInStepIff | crates/fm-engine/src/engine.rs:552-585 | an unmerge leaves followers behind exactly when it brings a tombstoned memory back |
| SagaPhases.UpkeepPassInStepIff | crates/fm-engine/src/engine.rs:794-845 | the recycle and promote phase keeps followers in step exactly when the calls made for each memory agree |
| SagaPhases.MergePassInStepIff | crates/fm-engine/src/engine.rs:222-326 | the merge phase keeps followers in step exactly when every attempt is recorded and logged, or undone; failed vector deletions do not matter |
| SagaPhases.ReextractPassInStepIff | crates/fm-engine/src/engine.rs:864-892 | late extraction keeps followers in step exactly when every memory it rewrote was logged or still as it was read |
| SagaCommit.TurnOutcome | crates/fm-engine/src/engine.rs:660-745 | one turn is stored completely or not at all: its row with content, interaction, session, tenant and namespace of the turn, ending with the extractor's entities and waiting for them exactly when there is no extractor or it failed, and its vector |
| SagaCommit.TurnLists | crates/fm-engine/src/engine.rs:660-745 | a stored turn adds its id and one log entry that holds its row, without entities, and its vector; a failed one is reported with the stage that failed |
| SagaCommit.CommitAllOrNothing | crates/fm-engine/src/engine.rs:648-761 | each turn ends with row, vector and one log entry or with none; ids, log entries and failed turns are those of the turns, each in its place; nothing else changes |
| SagaMerge.IndexOfListing | crates/fm-engine/src/engine.rs:239-246 | the lookup built from a listing finds current rows, and every listed row by its own reference |
| SagaMerge.IndexFindsTheLast | crates/fm-engine/src/engine.rs:241-246 | where several listed rows have one reference, the last is found |
| SagaMerge.RecordedMergeDoes | crates/fm-engine/src/engine.rs:278-320 | a recorded merge tombstones its source, takes the source's vector if it can be deleted, and adds one merge-log row and one log entry that names source, target, reason and time |
| SagaMerge.UnrecordedMergeDoes | crates/fm-engine/src/engine.rs:288-312 | a merge that cannot be recorded is neither counted nor logged; its source is live again exactly when that could be undone |
| SagaMerge.UndoneIff | crates/fm-engine/src/engine.rs:288-312 | a half merge is undone completely exactly when the row is untombstoned and the vector is back or never left |
| SagaMerge.MergeKeepsVectorsLiveIff | crates/fm-engine/src/engine.rs:278-287 | a recorded merge keeps tombstoned rows without vectors exactly when the deletion succeeded |
| SagaMerge.MergePassKeepsASurvivor | crates/fm-engine/src/engine.rs:222-326 | with succeeding deletions the edges of a pass have no cycle, every merged memory leads to a live one, and the count equals new log rows and newly tombstoned rows |
| SagaMerge.FailedDeleteLosesBoth | crates/fm-engine/src/engine.rs:287 | a pass in which an ignored failed deletion merges two memories into each other |
| SagaEdges.MergesComeFromMatches | crates/fm-engine/src/engine.rs:222-326 | every merge of a pass is of a changed, live, semantic memory into a hit of its own search that is at least 92 per cent similar: another live row with which it shares an entity |
| SagaEdges.MergedIntoFirstMatch | crates/fm-engine/src/engine.rs:222-326 | every changed memory that can be merged is merged into the first such hit whose vector is stored, as long as its calls succeed |
| SagaEdges.MergedIff | crates/fm-engine/src/engine.rs:222-326 | a memory is merged in a pass exactly when it can be merged as the pass comes to it, some such hit works, and the first one that does can be recorded |
| SagaEdges.EndsEarlyIff | crates/fm-engine/src/engine.rs:255 | a pass ends early exactly when the search fails for a memory that can be merged |
| SagaEdges.OtherVectorsStay | crates/fm-engine/src/engine.rs:222-326 | a pass touches no vector that is not of a changed memory |
| SagaEdges.FailuresReported | crates/fm-engine/src/engine.rs:278-312 | each tombstone that cannot be set and each merge that cannot be recorded is reported, and nothing else |
| SagaSurvival.AcyclicIff | crates/fm-engine/src/engine.rs:278-320 | recorded merges have no cycle exactly when none went into a memory that already led back to its source |
| SagaSurvival.AllSurviveIff | crates/fm-engine/src/engine.rs:278-320 | every merged memory leads to a live one exactly when no merge went back to its source and no target was lost |
| SagaSurvival.MergeKeepsSurvivalIff | crates/fm-engine/src/engine.rs:278-320 | one more merge keeps every merged memory leading to a live one exactly when its target does not already lead back to its source |
| SagaSurvival.PassSurvivesIff | crates/fm-engine/src/engine.rs:222-326 | for a pass in which any calls fail: acyclic exactly when no merge went back to its source, every merged memory leads to a live one exactly when also none went into a memory whose own attempt was left half done, and the count is the number of new log rows |
| SagaSurvival.UndonePassSurvivesIff | crates/fm-engine/src/engine.rs:222-326 | when failed records are undone in the rows, the only condition is that no merge went into a target that led back to its source |
| SagaConsolidate.DeleteIsOrderly | crates/fm-engine/src/engine.rs:1255-1277 | whatever fails, a delete never leaves a tombstoned row with its vector |
| SagaConsolidate.DeleteTouchesOnly | crates/fm-engine/src/engine.rs:1255-1277 | a delete changes no other row and no other vector |
| SagaConsolidate.DeleteDone | crates/fm-engine/src/engine.rs:1255-1277 | a delete succeeds exactly when the calls it makes do, and then row, vector and log are done; otherwise nothing is logged |
| SagaConsolidate.RecycleKeepsVectorsLiveIff | crates/fm-engine/src/engine.rs:799-822 | recycling leaves a tombstoned row with its vector exactly when only the vector's deletion failed |
| SagaConsolidate.UpkeepPassKeepsGood | crates/fm-engine/src/engine.rs:794-845 | the recycle and promote phase keeps what the merge phase relies on |
| SagaConsolidate.UpkeepCounts | crates/fm-engine/src/engine.rs:794-845 | every memory to recycle is counted whatever fails; every memory to promote is counted or reported |
| SagaWrites.UpkeepLogs | crates/fm-engine/src/engine.rs:794-845 | the recycle and promote phase logs exactly the memories it recycled or promoted, as far as the log can be appended to, in order and numbered on |
| SagaWrites.UpkeepVectors | crates/fm-engine/src/engine.rs:794-822 | it takes away exactly the vectors of recycled memories that can be deleted, and no merge-log row |
| SagaWrites.RecycleFailuresReported | crates/fm-engine/src/engine.rs:800-816 | each call that fails for a memory to be recycled is reported once |
| SagaWrites.ExtractedInRowAndLog | crates/fm-engine/src/engine.rs:864-892 | a memory whose late extraction succeeds ends with the extractor's entities, waits no longer and is otherwise as it was read, in its row and in one log entry; all other rows stay |
| SagaActions.CommitIsAction | crates/fm-engine/src/engine.rs:660-745 | what a stored turn does to rows and log is the commit, and the attachment, of the convergence runs |
| SagaActions.DeleteIsAction | crates/fm-engine/src/engine.rs:1255-1277 | so is a delete |
| SagaActions.RecycleIsAction | crates/fm-engine/src/engine.rs:799-822 | so is recycling |
| SagaActions.PromoteIsAction | crates/fm-engine/src/engine.rs:823-843 | so is a promotion |
| SagaActions.MergeIsAction | crates/fm-engine/src/engine.rs:278-322 | so is a merge, recorded or undone |
| SagaActions.ReextractIsAction | crates/fm-engine/src/engine.rs:864-892 | so is a late extraction |
| SagaActions.ReconcileIsAction | crates/fm-engine/src/engine.rs:506-547 | so is a reconcile, as the removal of tombstoned rows |
| SagaWhole.ConsolidationKeepsSurvivorsIff | crates/fm-engine/src/engine.rs:794-892 | at the end of a consolidation with any calls failing every merged memory is tombstoned, and each leads to a live one exactly under the conditions of the merge pass |
| SagaWhole.ConsolidationInStepIff | crates/fm-engine/src/engine.rs:794-892 | phase by phase, exactly when a consolidation leaves a follower in step; a rewritten memory must be logged, or neither recycled nor promoted |
| SagaWhole.ConsolidationKeepsNothingMore | crates/fm-engine/src/engine.rs:794-892 | a consolidation before its reconcile leaves a follower no rows beyond the leader's |
| SagaWhole.UpkeepRow | crates/fm-engine/src/engine.rs:794-845 | a recycled memory's row ends tombstoned, a promoted one's long-term, as far as they could be written, and any other as it was |
| SagaWhole.ReextractIsHarmlessIff | crates/fm-engine/src/engine.rs:864-892 | late extraction changes nothing a follower looks at, in any row, exactly when every memory it rewrote was still as the first phase read it |
| SagaWhole.LateExtractionIsHarmlessIff | crates/fm-engine/src/engine.rs:794-892 | in a consolidation, late extraction changes nothing exactly when it rewrites no memory that was recycled or promoted |
| SagaWhole.RecycledStaysRecycledIff | crates/fm-engine/src/engine.rs:794-892 | a recycled memory is still tombstoned at the end exactly when it was not rewritten and no merge attempt on it was undone |
| SagaWhole.MergedStayMerged | crates/fm-engine/src/engine.rs:845-892 | the memories merged in a consolidation are still tombstoned at its end: late extraction rewrites none of them |
| SagaWhole.ReextractRevivesRecycled | crates/fm-engine/src/engine.rs:794-892 | a consolidation without failures that recycles a memory waiting for entities and brings it back live without its vector |
| SagaReconcile.ReconcileResult | crates/fm-engine/src/engine.rs:449-549 | the vectors left are exactly the old ids that live rows in scope refer to, the rows left are the live rows, the merge sources and those with an unreadable reference, and the count is the rows removed |
| SagaReconcile.ReconcileExactly | crates/fm-engine/src/engine.rs:449-549 | whatever listings and deletions fail: exactly which vectors go, which rows go, and what is answered |
| SagaReconcile.ReconcileFixpoint | crates/fm-engine/src/engine.rs:449-549 | a second run removes nothing and changes nothing |
| SagaReconcile.OutOfScopeRowsLoseTheirVectors | crates/fm-engine/src/engine.rs:455-505 | a live row keeps its vector exactly when it is of the run's tenant and visible in its namespace |
| SagaReconcile.UnmergeRestores | crates/fm-engine/src/engine.rs:552-585 | an unmerge succeeds exactly when the calls it needs do, and then makes the memory live with a vector under its own id, takes its log row and changes nothing else |
| SagaReconcile.NothingToUnmerge | crates/fm-engine/src/engine.rs:552-585 | an unknown merge changes nothing; a source that is gone costs only the log row; neither is an error |
| SagaReconcile.UnmergeSurvivesReconcileIff | crates/fm-engine/src/engine.rs:552-585 | the memory is still there after the next reconcile exactly when the calls that the unmerge needed succeeded; an embedding is needed only when the vector is gone |
| SagaReconcile.ReconcileKeepsSourcesIff | crates/fm-engine/src/engine.rs:506-520 | with succeeding deletions, a reconcile keeps the merge sources exactly when it could list the merge log or ended before |
| SagaRuns.EventKeeps | crates/fm-engine/src/engine.rs:179-892 | every operation and every step of a consolidation, with any calls failing, keeps merge sources restorable and keeps entities away from memories that wait for them |
| SagaRuns.MergesStayReversible | crates/fm-engine/src/engine.rs:506-585 | after any run, also inside a consolidation, every memory in the merge log is there and tombstoned, and an unmerge brings it back exactly when the calls it needs succeed |
| SagaRuns.PendingHasNoEntities | crates/fm-engine/src/engine.rs:179-207 | after any run of commits, attachments, imports and consolidations a memory that waits for its entities has none, so late extraction never rewrites one that was merged away |
| SagaRuns.MergeNextIsPhase | crates/fm-engine/src/engine.rs:222-326 | one event of a run is one memory of the merge pass |
| SagaRuns.TendNextIsPhase | crates/fm-engine/src/engine.rs:794-845 | likewise for recycling and promoting |
| SagaRuns.ExtractNextIsPhase | crates/fm-engine/src/engine.rs:864-892 | likewise for late extraction |
| SagaRuns.SomeRunMerges | crates/fm-engine/src/engine.rs:222-326 | a run of imports and a consolidation in which a memory is merged away |
| SagaRuns.SomeRunForgets | crates/fm-engine/src/engine.rs:506-547 | a run in which a memory is committed, deleted and removed for good |
| Engine.MemoryEngine.CommitInner | crates/fm-engine/src/engine.rs:648-761 | the loop over turns with its early continues is the commit function |
| Engine.MemoryEngine.DeleteMemory | crates/fm-engine/src/engine.rs:1255-1285 | the in-place delete, vector first, is the delete function |
| Engine.MemoryEngine.UpkeepPhase | crates/fm-engine/src/engine.rs:794-845 | the loop over changed memories is the upkeep function with its counts and failure list |
| Engine.MemoryEngine.ListAll | crates/fm-persist/src/store.rs:289-313 | exactly the tenant's live rows that the namespace filter shows are listed, each once, oldest first |
| Engine.MemoryEngine.MergeOne | crates/fm-engine/src/engine.rs:278-322 | tombstone, delete, record and compensate in place as the merge function says |
| Engine.MemoryEngine.TryAllHits | crates/fm-engine/src/engine.rs:257-325 | the loop over search hits with continue and break is the hit search, which goes for the first hit that works (`SagaEdges.MergedIff`) |
| Engine.MemoryEngine.ConsolidateMerge | crates/fm-engine/src/engine.rs:222-326 | the nested loops, unless the rows cannot be listed, are the merge pass of the lemmas, which merges exactly similar memories with a shared entity (`SagaEdges`) |
| Engine.MemoryEngine.ReextractPhase | crates/fm-engine/src/engine.rs:864-892 | the loop over changed memories is the late extraction of the lemmas, with its count and failure list |
| Engine.MemoryEngine.CleanOrphans | crates/fm-engine/src/engine.rs:489-505 | the reverse scan removes exactly the orphan vectors that can be deleted |
| Engine.MemoryEngine.RemoveTombstoned | crates/fm-engine/src/engine.rs:506-547 | the scan of tombstoned rows removes exactly the removable ones, vectors first, and counts; without a listing it ends in an error and changes nothing |
| Engine.MemoryEngine.ConsolidateReconcile | crates/fm-engine/src/engine.rs:449-549 | both scans together, with the two listing errors that end them, are the reconcile function of the lemmas |
| Engine.MemoryEngine.UnmergeOne | crates/fm-engine/src/engine.rs:552-585 | the in-place unmerge with its early error returns is the unmerge function |
| FollowerLoop.CountersMean | crates/fm-cluster/src/transport.rs:325-381 | the loop's counters are the transport failures since the last exchange, the capped power of two of the retries since the last clean batch, and the flag of the last telling round |
| FollowerLoop.StaleIff | crates/fm-cluster/src/transport.rs:339-376 | the stale flag is set exactly when the last round that was no transient replay failure was not clean |
| FollowerLoop.StaleLeaderIff | crates/fm-cluster/src/transport.rs:269-281 | exactly a leader with an epoch below the one expected, if one is, is refused, and then nothing changes; any other answer is replayed |
| FollowerLoop.StaleLeadersHaveNoInfluence | crates/fm-cluster/src/transport.rs:246-294 | over a whole run, whatever leaders with a smaller epoch send has no influence on stores and cursor: all ends as if their answers had been others, or lost |
| FollowerLoop.BackoffJitter | crates/fm-cluster/src/transport.rs:389-403 | the offset is at most a quarter of its base, through the wrapping 64-bit hash |
| FollowerLoop.CeilingSpreads | crates/fm-cluster/src/transport.rs:387-403 | at the ceiling, followers pause alike exactly when their cursors agree modulo 16: all offsets occur in any sixteen consecutive cursors |
| FollowerLoop.PauseIs | crates/fm-cluster/src/transport.rs:353-360 | the pause after the k-th transient replay failure since the last clean batch is min(2^k, 60) seconds and up to a quarter more; after any other round it is the heartbeat interval |
| FollowerLoop.BackoffBounded | crates/fm-cluster/src/transport.rs:354-360 | a back-off pauses between 2 and 75 seconds |
| FollowerLoop.FirstDownStrikes | crates/fm-cluster/src/transport.rs:370-380 | giving up takes exactly max(1, configured) failures since the last exchange, not fewer at any earlier round |
| FollowerLoop.Follower.SyncOnce | crates/fm-cluster/src/transport.rs:246-294 | a leader with a smaller epoch is refused and changes nothing, exactly; any other answer is replayed and moves the cursor |
| FollowerLoop.Follower.Round | crates/fm-cluster/src/transport.rs:328-383 | one turn of the loop, spelled out for each outcome: counters, flag, pause, and whether the leader is given up |
| FollowerLoop.Follower.Run | crates/fm-cluster/src/transport.rs:323-385 | the run ends with the first round that gives the leader up and only then; stores, flag and every pause are those of the rounds used |
| Orbit.FollowerOrbit.Promote | crates/fm-server/src/cluster.rs:172-189 | epoch file before role file; the role is leader on disk only with the next epoch |
| Orbit.FollowerOrbit.Live | crates/fm-server/src/cluster.rs:158-170 | one life from a position, ending exactly when the leader is given up |
| Orbit.NextLifeStarts | crates/fm-server/src/cluster.rs:191-195 | the next life starts with the stores left at the first round at which enough failures had passed, at the position read after the campaign or else where this life started |
| Orbit.FollowerOrbit.Run | crates/fm-server/src/cluster.rs:151-199 | lives follow each other through lost campaigns; it ends promoted only after a won campaign with both files written, stopped only by a failed campaign or file; the role file changes only by a promotion, with epoch plus one |
| Orbit.PromotedMeansElected | crates/fm-server/src/cluster.rs:163-189 | a promotion follows a won campaign after exactly enough failures to give the leader up |
| Graph.LevelIsWalks | crates/fm-persist/src/store.rs:777-782 | the recursive table holds a node at a level exactly when a walk of that length leads there |
| Graph.QueryIsShortestDistance | crates/fm-persist/src/store.rs:771-795 | the query answers exactly the other nodes within the limit, each with its shortest distance |
| Graph.ByLevelIsListing | crates/fm-persist/src/store.rs:777-784 | such a result exists for all relations |
| Graph.CutIsAllOrNothing | crates/fm-persist/src/store.rs:783-784 | the ordered cut keeps the best score exactly when the first candidate is within it, and otherwise yields 0 |
| Graph.ContributionIsExactOrNothing | crates/fm-graph/src/affinity.rs:22-55 | one entity contributes 1 / 2^d for its nearest candidate d hops away, nothing without a candidate, or 0 after a cut; always the former when it reaches at most 256 others |
| Graph.HalfIsInversePower | crates/fm-graph/src/affinity.rs:46 | the score of a hop count, doubled as often as there are hops, is one |
| Graph.AffinityIs | crates/fm-graph/src/affinity.rs:22-82 | the affinity is 1 / 2^d if the nearest candidate of any entity is d hops away, and 0 if none is within the limit |
| Graph.FartherScoresLess | crates/fm-graph/src/affinity.rs:22-82 | candidates farther from all entities score strictly less |
| Graph.CutIsHarmlessIff | crates/fm-persist/src/store.rs:18-19 | every answer gives the exact contribution if and only if fewer than 256 entities that are no candidates are as near as the nearest candidate |
| Graph.NothingCutNothingLost | crates/fm-persist/src/store.rs:18-19 | entities that reach at most 256 others lose nothing |
| Graph.CutLosesAContribution | crates/fm-persist/src/store.rs:18-19 | relations, an entity and an answer that misses its only candidate: it counts 0 instead of one half |
| Graph.AffinityFromReachability | crates/fm-graph/src/affinity.rs:22-55 | the nested loops compute 1 for a direct hit, else 1 / 2^d for the nearest candidate in the answer, d hops away, and 0 without one |
| Graph.NHopReachable | crates/fm-persist/src/store.rs:771-795 | an answer of the query, cut at 256 rows |
| Graph.FoldQuery | crates/fm-graph/src/affinity.rs:69-79 | folding in one entity never exceeds the true maximum and keeps it where the cut is harmless |
| Graph.GraphAffinity | crates/fm-graph/src/affinity.rs:59-82 | the score never exceeds the affinity, 1 / 2^d for the nearest candidate d hops away, and equals it when no cut can do harm or an entity is a candidate; an error exactly when a query fails before a direct hit |
| Lru.LruCache.Get | crates/fm-embed/src/cache.rs:34-45 | a hit exactly within the time to live, which refreshes only the use; after a miss the key is not held; other entries stay |
| Lru.LruCache.LeastRecentlyUsed | crates/fm-embed/src/cache.rs:54-58 | the scan finds an entry with the smallest instant |
| Lru.LruCache.Put | crates/fm-embed/src/cache.rs:47-67 | the key holds the vector as of now; a full cache gives up a least recently used entry for a new key; other entries stay |
| Lru.EvictionExcused | crates/fm-embed/src/cache.rs:53-58 | when the least instant has one holder or its holders have expired, the evicted key has expired or as many other keys as fit were used since |
| Lru.LruGuarantee | crates/fm-embed/src/cache.rs:34-67 | over every run: never over capacity, a hit is the last value put within its time to live, and if every eviction was justified an unexpired key is missing only after `capacity` others |
| Lru.ExcusedForEveryHistoryIff | crates/fm-embed/src/cache.rs:53-58 | for a full cache, an eviction is right after every history that leads there exactly when the entries justify it: the least instant has one holder or the victims have expired |
| Lru.TiesBreakTheGuarantee | crates/fm-embed/src/cache.rs:53-58 | four calls at one instant after which the key used last, just put, is gone although only one other key was used since |
| Luhn.LuhnValid | crates/fm-engine/src/redact.rs:84-101 | the backward loop is the standard's test: every second digit from the right adds the digit sum of its double; without overflow below 2^32 / 9 digits; a non-digit is invalid |
| Luhn.DigitSumOfDouble | crates/fm-engine/src/redact.rs:92-97 | subtracting 9 from a two-digit double is adding its digits |
| Luhn.OneDigitChangeDetected | crates/fm-engine/src/redact.rs:84-101 | changing any one digit of a valid string makes it invalid |
| Luhn.TranspositionUndetectedIff | crates/fm-engine/src/redact.rs:84-101 | swapping two different neighbours goes unnoticed exactly for 0 and 9 |
| Luhn.ExactlyOneFinalDigit | crates/fm-engine/src/redact.rs:84-101 | each prefix has exactly one valid final digit |
| Frames.LengthRoundTrip | crates/fm-cluster/src/protocol.rs:84-101 | the four length bytes read back |
| Frames.FrameLayout | crates/fm-cluster/src/protocol.rs:82-89 | on the wire a frame is four bytes that stand for the length, the first counting most, and then the body |
| Frames.BodyRoundTripIff | crates/fm-cluster/src/protocol.rs:82-112 | a body comes back, the rest of the stream untouched, exactly when it has 1 to 16 MiB; an empty one reads as an end, a longer one as a failure |
| Frames.StreamRoundTrip | crates/fm-cluster/src/protocol.rs:82-112 | every sequence of frames reads back as itself and then as a clean end |
| Frames.CutStream | crates/fm-cluster/src/protocol.rs:92-112 | a stream cut anywhere yields the complete frames before the cut, then a clean end within length bytes and an error within a body |
| Frames.Connection.ReadExact | crates/fm-cluster/src/protocol.rs:94-110 | all the bytes or none, and then the stream is used up |
| Frames.Connection.SendFrame | crates/fm-cluster/src/protocol.rs:82-89 | length and body are appended in this order |
| Frames.Connection.ReceiveFrame | crates/fm-cluster/src/protocol.rs:92-112 | the step-by-step reader is the read function of the lemmas |
| Namespace.PredicateAgreesWithVisible | crates/fm-persist/src/store.rs:1071-1112 | the predicate that is built, at every placeholder position, decides as the in-memory filter does; an unknown namespace is refused |
| Namespace.VisibleIff | crates/fm-core/src/namespace.rs:42-53 | a filter shows the rows of its own namespace, under its key if it has one; a project shows all of the user's rows too; only a filter without a namespace shows anything else |
| Namespace.ListScopedIsExact | crates/fm-persist/src/store.rs:289-313 | the scoped listing answers exactly the tenant's live visible rows |
| Namespace.GetByVectorRefsIsExact | crates/fm-persist/src/store.rs:355-397 | the scoped lookup answers exactly the tenant's live visible rows with one of the references |
| Retrieval.BestIsMaximumIff | crates/fm-engine/src/engine.rs:1137-1140 | an interaction's score is the maximum of its hit scores exactly when one of them is not negative |
| Retrieval.HitsAre | crates/fm-engine/src/engine.rs:1117-1146 | the hits are the scored answers that lead to a row of one of the tiers and of the session asked for |
| Retrieval.RankedFalls | crates/fm-engine/src/engine.rs:1192 | ranking is by falling score |
| Retrieval.GroupHits | crates/fm-engine/src/engine.rs:1110-1146 | the loop groups exactly the wanted hits by interaction with their scores, and ends in an error exactly when one of them cannot be scored |
| Retrieval.FitBudget | crates/fm-engine/src/engine.rs:1193-1203 | the longest prefix within the budget is kept, the first block always |
| Retrieval.TokensAre | crates/fm-engine/src/engine.rs:1197 | tokens are three tenths of the bytes, rounded down |
| Retrieval.KeptFits | crates/fm-engine/src/engine.rs:1193-1203 | the kept blocks fit the budget or are one block, and a block with a better score than a kept one is kept |
| Retrieval.NextDoesNotFit | crates/fm-engine/src/engine.rs:1193-1203 | the first block left out would not have fitted any more |
| Retrieval.HitIds | crates/fm-engine/src/engine.rs:1470-1483 | exactly the memories hit in kept blocks are named |
| Retrieval.Persist.TouchAccessBatch | crates/fm-persist/src/store.rs:598-630 | each live row named gains one access at this time and changes nothing else, however often it is named |
| Retrieval.Persist.RetrieveContext | crates/fm-engine/src/engine.rs:1096-1213 | an error exactly when search, lookup, scoring or reading a text fails, and then nothing is counted; else one block per interaction hit, in rank order, cut to the budget, and exactly the live hits of kept blocks gain one access, unless that update fails |

## Left out

- Process restarts of a node: votes live in memory only (crates/fm-cluster/src/election.rs:187-193), so no vote rule survives one; node addresses are taken as distinct.
- The vote listener's sockets; a message that is lost or late is a step that does not happen or happens later. Instants of the election lease are parameters.
- Leader completeness as Raft has it: the handler compares with the recorded position, which may lag the node's own log.
- JSON text: log payloads are kept parsed and frame bodies go through an encode and decode pair that is taken to be faithful.
- Backend internals (HNSW and sled, SQLite, the embedder, the language model, encryption): calls with an outcome. Search answers are any list cut to ids that are present; ids and vector ids are drawn by the environment.
- Numbers of rows and log entries are unbounded integers; 64-bit parsing of vector references, the 32-bit digit sum, the 32-bit frame length, the 64-bit hash and the 64-bit epoch are modelled with their width.
- Floating point: scores, affinities and token estimates are real numbers, so rounding in scores and in the token estimate is not modelled. Decay, freshness and cosine values are parameters.
- The order among rows that the database leaves open: answer rows of equal hop and blocks of equal score come in any order (the latter in key order in the code).
- Reconcile reports, the audit log, consolidation reports, metrics and log messages.
- Summaries, scope deletion, import and unmerge are no steps of the convergence runs: followers do not replay them (for unmerge see `UnmergeInStepIff`). Summaries, imports and unmerges are steps of the runs of `MergesStayReversible`.
- SagaRuns.MergesStayReversible: a reconcile that comes to the tombstoned rows has read the merge log (`ReconcileKeepsSourcesIff` is exact about that), and a consolidation merges only memories whose rows a reconcile run by hand in between has not removed; it removes the vector first, and then there is nothing to merge.
- Sessions of the read side: assembling turns, truncating them and joining their text; the texts' lengths are parameters.
- Redaction patterns around the card number check, entity alignment, configuration, schema migration, routing, the web interface and the clients: case splits without deep properties.
- Lru.LruGuarantee: the clause on crowded-out keys asks that every eviction on the way was justified; `ExcusedForEveryHistoryIff` shows for each single eviction that this is exact.
- SagaReconcile.ReconcileResult: succeeding deletions and listings; `ReconcileExactly` has all failures.
- SagaMerge.MergePassKeepsASurvivor: succeeding deletions; `SagaSurvival.PassSurvivesIff` has the exact condition for all passes.
- Orbit.FollowerOrbit.Run: the campaign at the end of a life is an outcome; the campaign itself is modelled in the election modules.
- FollowerLoop.Follower.Run: it is given finitely many rounds; that it goes on for ever otherwise is the case in which all are used.
