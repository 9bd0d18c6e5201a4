# zrepl in Dafny: replication guarantees, planning, scheduling and transport

zrepl replicates ZFS filesystems from a sender to a receiver. It plans a chain of incremental sends, protects the
versions that future sends need with holds and bookmarks, schedules the steps of many filesystems at once, streams
them over a framed connection, and prunes old snapshots on both sides. This project models the logic behind those
promises and proves them for all inputs, all reachable states and all interleavings.

| file | what it models |
|---|---|
| Versions, Diff, Planner, Convergence | version lists, the incremental path, plans with and without resume token, and what executing and re-planning does |
| Protocol, ProtocolTheorems | the guarantee protocol as a state machine of sender, receiver, the step under way and an adversarial environment |
| Names, Abstractions, Cache, Endpoint, Staleness | bookmark names, holds and bookmarks as abstractions, the cache over them, the endpoint operations in place on disk and cache, stale listings |
| Driver, Attempt, AttemptHistory, StepQueue | correlation with the previous attempt, one attempt as interleaved goroutines, which steps its runs executed, the bounded priority queue |
| Bytes, Bits, BufPool, FrameConn, Heartbeat, Stream | the data connection, layer by layer |
| DestroyBatch, Chunking, CircLog, RetentionGrid, Pruning, Pruner | batched destroys, the chunk encoding, the circular log, retention and pruning |
| Collections, Order | sequences and their elements, the order of strings |

Code that works in place is modelled by classes and methods with loops (`StepQueue.StepQueue`, `Cache.AbstractionsCache`,
`Endpoint.Host`, `FrameConn.Conn`, `CircLog.CircularLog`, `Chunking.Chunker`, `DestroyBatch.Zfs`, ...), each method
proved against a specification on values; goroutines under one lock are modelled by one transition per hold of the
lock. An unstable sort is any sorted permutation. Maps are iterated in any order. Times, dates and createtxgs are
integers, regular expressions and UTF-8 validity are arbitrary predicates.

## Assumptions about the environment

- ZFS: a bookmark has guid and createtxg of its snapshot; within a filesystem a createtxg belongs to one guid and a
  guid to one snapshot; a held snapshot cannot be destroyed; snapshots are not renamed and their names are not reused;
  `zfs recv` accepts a stream only on top of the receiver's newest snapshot.
- Guarantee protocol: one send at a time per job and filesystem (endpoint/endpoint.go:227), `SendCompleted` arrives in
  order or is lost, no snapshots are taken on the receiver, and nobody but the job destroys the bookmarks the job made.
  Bookmarks of users and other jobs may be made and destroyed at any time. Every cleanup may skip any part of what is
  obsolete; any unheld snapshot may be pruned at any time; `Send` may fail half-way. A snapshot that was received is
  held before anything else happens to it; `ProtocolTheorems.UnheldReceiveLosesBase` shows that this is needed.
- Driver: `PlanFS` and `Step` return, with any result.
- Destroying one snapshot succeeds iff it exists and is not stuck; destroying several at once is all or nothing and
  may fail with any error at any time.

## Where the code does not do what it says

- The guarantees keep the common base by the job's own holds and bookmarks exactly if neither kind of step has the
  guarantee `none` and initial replication is not `incremental` under `resumability` for the steps after it
  (`ProtocolTheorems.GuaranteeExact`): in that mixture a step that starts from somebody else's bookmark cleans up the
  tentative cursor, and the base is gone once that bookmark is. A receive that fails between recv and its hold can lose
  the base with every guarantee (`ProtocolTheorems.UnheldReceiveLosesBase`).
- Of the snapshots with a last-received-hold exactly the newest is protected on the sender
  (`ProtocolTheorems.HoldProtectionExact`). A resume token can block planning exactly for kinds of steps without
  `resumability` (`ProtocolTheorems.TokenExact`), and once its target is pruned it does so for good
  (`ProtocolTheorems.StuckTokenBlocksPlanning`).
- A sender that has bookmarks but no snapshot makes initial replication plan a step without target (`most_recent`) or
  panic (`all`); exactly then (`Convergence.InitialPlanExact`).
- A job id that embeds a separator `_G_<16 hex>_J_`, also across its own beginning, breaks bookmark names, exactly
  then (`Names.NameRoundTripExact`), and makes `Send` panic, under an exact condition (`Endpoint.Host.Send`) that every
  such job id can reach (`Endpoint.SeparatorInJobPanics`).
- replication/driver/replication_driver.go:525-526 promises steps up to and including the matched target; the slice at
  line 551 excludes it, so a retry loses its last step (`Driver.CutLosesTarget`). Planning errors never reach the
  report that decides on a retry (`Attempt.PlanErrorsUnreported`).
- replication/driver/replication_driver.go:471 says that children are woken when planning is done. They are not: a child
  can sleep although its only ancestor is planned and on the receiver (`AttemptHistory.SleepsThoughPresent`). It sleeps
  only while some ancestor has neither returned nor completed a step (`Attempt.SleepsForReason`), so nothing is lost.
- A cache invalidation during a load loses track of abstractions (`Cache.OverlappingInvalidationLosesCover`), exactly
  of those that a load has not read when it has read the disk before (`Cache.OverlapExact`, `Cache.HarmLosesCover`).
- A replication cursor with createtxg zero panics the listing of stale step holds next to it
  (`Staleness.ZeroCursorPanics`); exactly such a cursor, or a newest step hold with createtxg zero and no cursor, does
  (`Staleness.PanicsExactly`).
- A stream with a chunk of one byte panics the frame reader, exactly then (`Stream.ReaderPanicsExactly`). An empty
  error text, or `io.ErrUnexpectedEOF` as the source's error, reads as a clean end (`Stream.StreamEndToEnd`).
- A complete frame with payload is lost if the wire is cut inside the header behind it, exactly then
  (`FrameConn.DeliveredExact`). A cut-off stream is never taken for complete (`Stream.TruncatedEndToEnd`).
- A source read that returns no bytes and no error ends the chunk encoding; the round trip holds exactly if nothing
  follows it (`Chunking.RoundTripExact`). A wire that is cut off reads as a clean end, other than exactly inside the
  length of a chunk (`Chunking.CutWire`). A source that fails reads as a clean end too; only the sending side gets to
  know (`Chunking.Transfer`).
- A retention grid removes everything exactly if no bucket has an extent (`RetentionGrid.SurvivalExact`).
- The retention grid's keep list also holds what it removes (`RetentionGrid.FitEntriesWithNow`); the error at
  daemon/pruner/pruner.go:476-479 is unreachable (`Pruner.MarkReplicated`).
- A log write larger than the log overwrites part of the caller's buffer (`CircLog.CircularLog.Write`).

## Model

| member | source | states |
|---|---|---|
| Versions.SortVersionList | replication/logic/diff/diff.go:69-89 | a sorted permutation; a list that is sorted already is returned as it is |
| Versions.StripBookmarks | replication/logic/diff/diff.go:91-99 | exactly the snapshots, in list order |
| Versions.SortsAgreeOnSnaps | replication/logic/diff/diff.go:69-89 | although the sort is unstable, any two sorts of a filesystem's versions list its snapshots in the same order |
| Diff.FindCandidate | replication/logic/diff/diff.go:115-132 | finds the newest receiver snapshot whose guid the sender has, and the sender's last version of that guid |
| Diff.BuildPath | replication/logic/diff/diff.go:156-164 | the ancestor and behind it the snapshots of the rest, none repeating the guid before it |
| Diff.IncrementalPath | replication/logic/diff/diff.go:101-174 | the result is that of the reference path on some sort of both lists |
| Diff.ConflictsExact | replication/logic/diff/diff.go:134-152 | which conflict arises, iff conditions on which guids are shared, without reference to the search |
| Diff.ConflictContents | replication/logic/diff/diff.go:134-152 | what a conflict carries: both lists, or the newest common version and what follows it on each side |
| Diff.BasePrefersSnapshot | replication/logic/diff/diff.go:121-132 | if the sender still has the snapshot, the path starts from it and not from a bookmark of it |
| Diff.PathIsNewerSnaps | replication/logic/diff/diff.go:154-173 | the path is the base followed by exactly the sender's newer snapshots; already present iff there are none |
| Planner.DoPlanning | replication/logic/replication_logic.go:389-482 | the plan is that of the reference planner on some sort of the lists, with and without resume token; `Convergence.DoPlanningOutcome` says which outcome that is for every policy |
| Planner.FindTokenStep | replication/logic/replication_logic.go:393-407 | which versions a resume token selects, snapshots before bookmarks for `from` and snapshots only for `to` |
| Convergence.PlanOutcome | replication/logic/replication_logic.go:225-272 | for all sorted lists and every policy: a conflict iff the receiver's newest snapshot is not shared and either it has snapshots or the policy is to fail; a panic and a plan, iff too |
| Convergence.PlanConflict | replication/logic/replication_logic.go:225-272 | the conflict reported is that there is no common ancestor, with both lists, or the divergence behind the newest common version |
| Convergence.DoPlanningOutcome | replication/logic/replication_logic.go:450-482 | every result of planning without a token is no versions, conflict, panic or plan under exactly those conditions on the lists it was given |
| Convergence.PlanShape | replication/logic/replication_logic.go:450-482 | every plan replicates a suffix of the sender's snapshots in createtxg order, starts where the receiver is, and starts from something older |
| Convergence.RunPrefix | replication/logic/replication_logic.go:450-482 | executing any number of steps of a plan succeeds: each `from` is what the receiver has last when the step runs |
| Convergence.ReplanIsSuffix | replication/logic/replication_logic.go:328-482 | after any number of executed steps every new plan is exactly the rest of the first one; after the last it is empty |
| Convergence.ResumePlanExact | replication/logic/replication_logic.go:389-449 | a resume plan exists iff the sender has the target as a snapshot and the token names two different versions; the error for one version iff it names it twice; the first step is the interrupted one and starts from a bookmark only if the sender lacks the snapshot |
| Convergence.ResumeReplanIsRest | replication/logic/replication_logic.go:389-482 | once the resumed step is received an ordinary plan is exactly the rest of the resume plan |
| Convergence.InitialPlanExists | replication/logic/replication_logic.go:233-262 | a sender with snapshots and an empty receiver have a plan with at least one step |
| Convergence.InitialPlanExact | replication/logic/replication_logic.go:233-262 | every step of an initial replication has a target iff the sender has a snapshot; what happens otherwise |
| Protocol.SendProtectsTarget | endpoint/endpoint_guarantees.go:118-180 | after `Send` the job itself keeps the target, by a hold under resumability |
| Protocol.SendProtectsFrom | endpoint/endpoint.go:221-305 | after `Send` what the step starts from is still kept; where that is somebody else's bookmark, by what the job kept of it before |
| Protocol.InvStep | endpoint/endpoint.go:189-323 | every step of the protocol and of its environment keeps the invariant, whatever is lost, skipped, pruned or destroyed by others |
| Protocol.InvOnRun | endpoint/endpoint.go:189-400 | the invariant holds in every state of every run |
| ProtocolTheorems.CommonBaseNeverLost | endpoint/endpoint_guarantees.go:118-220 | in every state of every run the receiver's newest snapshot is held, the job's own cursor, tentative cursor or step hold keeps its guid on the sender, and every plan from any listing succeeds; for the one mixture of guarantees without that promise, counting other bookmarks, while nobody destroys those |
| ProtocolTheorems.GuaranteeExact | endpoint/endpoint_guarantees.go:53-90 | the job itself keeps the base in every reachable state, and no reachable state can end in a conflict, iff no kind of step is without guarantee and the options are not `incremental` before `resumability` |
| ProtocolTheorems.MixedGuaranteesLoseBase | endpoint/endpoint.go:221-305 | the run behind that exception: a resumable step from another bookmark cleans up the tentative cursor, then the bookmark is destroyed |
| ProtocolTheorems.UnheldReceiveLosesBase | endpoint/endpoint.go:999-1015 | with any guarded options, a receive that fails before its hold, a step from it, and pruning reach a state without base |
| ProtocolTheorems.PlannedStepIsAllowed | endpoint/endpoint.go:189-214 | the first step of any plan made in an idle state is one `Send` accepts |
| ProtocolTheorems.ResumeAlwaysPossible | endpoint/endpoint_guarantees.go:157-180 | a token left by a step under resumability can always be used: its target is step-held, the resume plan exists, `Send` accepts it |
| ProtocolTheorems.ResumedSendKeepsHold | endpoint/endpoint.go:235-251 | a resumed send holds its target again before its cleanup can release it |
| ProtocolTheorems.TokenExact | endpoint/endpoint_guarantees.go:118-180 | for all options, for full and for incremental steps: every plan with a token of such a step succeeds in every reachable state iff that kind of step has the resumability guarantee |
| ProtocolTheorems.IncrementalTokenCanStick | endpoint/endpoint_guarantees.go:118-139 | for all options without resumability for incremental steps, a reachable state whose token's target was pruned |
| ProtocolTheorems.StuckTokenBlocksPlanning | replication/logic/replication_logic.go:389-449 | from a state whose token's target was pruned, every later state of every run has that token and no plan |
| ProtocolTheorems.HoldProtectionExact | endpoint/endpoint.go:1019-1038 | the snapshot with a last-received-hold is kept on the sender in every reachable state iff it is the newest |
| ProtocolTheorems.OlderHoldIsNotProtected | endpoint/endpoint.go:1035-1038 | for all guarded options and any number of newer snapshots, a reachable state in which no version of the sender has the guid of a held one |
| Names.NameRoundTripExact | endpoint/endpoint_zfs_helpers_repr.go:14-58 | a bookmark name parses back to its guid and job iff the job id embeds no separator |
| Names.LastSepExact | endpoint/endpoint_zfs_helpers_repr.go:24-58 | the parser splits at the separator that was written iff the job id embeds none |
| Names.RawNameInjective | endpoint/endpoint_zfs_helpers_repr.go:14-22 | equal names of one prefix have equal guid and job, for every job id |
| Names.StraddlingJobIdBreaksRoundTrip | endpoint/endpoint_zfs_helpers_repr.go:24-58 | a job id that is accepted, has no full separator of its own and still breaks the round trip of every name |
| Names.JobIdOkExact | endpoint/jobid.go:18-48 | a job id is accepted iff it is a valid component of at most 203 characters |
| Names.ExtractorsDisjoint | endpoint/endpoint_zfs_abstraction_replication_cursor.go:182-243 | no bookmark is recognised by two extractors |
| Names.ExtractExact | endpoint/endpoint_zfs_abstraction_replication_cursor.go:182-243 | a bookmark is taken for a job's cursor iff it has the name the job gives to a cursor of its guid, the job id is valid and embeds no separator |
| Abstractions.EqualsIsIdentity | endpoint/endpoint_zfs_abstraction.go:58-80 | comparing abstractions by their printed parts is equality |
| Abstractions.ExtractBookmark | endpoint/endpoint_zfs_abstraction.go:190-214 | returns what the one matching extractor yields, nothing iff none matches; the panic on a second match cannot happen |
| Cache.SplitConserves | endpoint/endpoint_abstractions_cache.go:98-117 | a cleanup's split loses and invents nothing, returns nothing that is kept and leaves nothing that is selected |
| Cache.AbstractionsCache.Put | endpoint/endpoint_abstractions_cache.go:56-68 | the abstraction is added, nothing else changes |
| Cache.AbstractionsCache.InvalidateFSCache | endpoint/endpoint_abstractions_cache.go:70-82 | forgets the filesystem's abstractions and that it was loaded, nothing else |
| Cache.AbstractionsCache.TryLoadOnDiskAbstractions | endpoint/endpoint_abstractions_cache.go:121-151 | waits while others load, whatever they do to the cache; then loads once per filesystem; a failed listing leaves it to be loaded again |
| Cache.AbstractionsCache.GetAndDeleteByJobIDAndFS | endpoint/endpoint_abstractions_cache.go:90-119 | behind any load in progress, returns the selected and keeps the others of cache and listing, in order |
| Cache.GoodStep | endpoint/endpoint_abstractions_cache.go:56-209 | every critical section and disk operation, with any number of loads under way, keeps the cache good, an invalidation iff it is harmless |
| Cache.GoodExact | endpoint/endpoint_abstractions_cache.go:121-151 | good means: a loaded cache knows what it has to, and will whichever load that has read the disk ends next |
| Cache.CoversOnRun | endpoint/endpoint_abstractions_cache.go:56-150 | over every interleaving in which invalidations are harmless, a loaded cache knows everything on disk that is not being created or destroyed |
| Cache.CleanupGetsAllOnDisk | endpoint/endpoint_abstractions_cache.go:90-150 | in such runs, after a successful load a cleanup gets every selected abstraction on disk that is not being created or destroyed already |
| Cache.FailedDestroyIsSeenAgain | endpoint/endpoint_abstractions_cache.go:180-209 | after a batch ended with an error, over every continuation, what was not destroyed stays on disk and, where invalidations are harmless, is in the cache whenever its filesystem is loaded, until it is handed out again |
| Cache.OverlapExact | endpoint/endpoint_abstractions_cache.go:70-151 | an invalidation at any time keeps the cache good iff every load of the filesystem that has read the disk has read all that must be known; before the read it always does |
| Cache.HarmLosesCover | endpoint/endpoint_abstractions_cache.go:70-151 | the first invalidation of a run that is not harmless can be followed by the end of a load after which a loaded cache misses an abstraction |
| Cache.OverlappingInvalidationLosesCover | endpoint/endpoint_abstractions_cache.go:70-82 | a run in which an invalidation during a load makes a loaded cache miss an abstraction |
| Cache.SecondLoadRaces | endpoint/endpoint_abstractions_cache.go:121-151 | a run with a second load beside the first: ending the stale one first loses an abstraction, ending it last does not |
| Endpoint.BatchDestroy | endpoint/endpoint_zfs_abstraction.go:734-751 | destroys exactly the given abstractions but for failing ones, and reports an error iff one of them fails |
| Endpoint.TryBatchDestroy | endpoint/endpoint_abstractions_cache.go:180-209 | behind any load by others, destroys exactly what is selected from cache and listing but for failing ones, panics iff the check finds a problem and then destroys nothing, forgets the filesystem after an error |
| Endpoint.Disk.List | endpoint/endpoint_zfs_abstraction.go:657-710 | exactly the holds, and the cursors whose names are read back |
| Endpoint.ExtractCanonical | endpoint/endpoint_zfs_abstraction_replication_cursor.go:182-243 | a cursor is recognised as what it is or not at all, never as another job's or of another type, for every job id |
| Endpoint.ProblemIsFrom | endpoint/endpoint.go:263-303 | whatever the check of `Send` finds is the job's own tentative cursor `From`, where it is on disk |
| Endpoint.FromIsExtracted | endpoint/endpoint.go:241-251 | that cursor is recognised, and so kept, iff the job id embeds no separator |
| Endpoint.CleanupIsSendEffect | endpoint/endpoint.go:221-305 | the cleanup of `Send` keeps everything the step needs, whatever cache and disk hold and whatever fails |
| Endpoint.Host.CreateTentative | endpoint/endpoint_zfs_abstraction_replication_cursor.go:148-180 | creates the cursor of a snapshot; a bookmark yields a cursor only if that exists already; fails iff the name is too long or the creation fails |
| Endpoint.Host.SenderPreSend | endpoint/endpoint_guarantees.go:118-180 | creates exactly what the strategy asks for and returns as live exactly that and an existing cursor of the bookmark it starts from, iff no creation fails; otherwise exactly what is created for `from`, if that does not fail |
| Endpoint.Host.Send | endpoint/endpoint.go:189-323 | the whole disk behind it: what the strategy creates, and all that was there but for exactly the job's step holds and tentative cursors that the cleanup sees, the step does not need and whose destroy does not fail; that is an effect the protocol allows a send or an aborted one; panics iff the job id embeds a separator and a step without tentative cursors, whose holds can be created, starts from the job's own tentative cursor that the cleanup finds in the cache |
| Endpoint.SeparatorInJobPanics | endpoint/endpoint.go:263-304 | every job id that embeds a separator reaches that panic: an initial send, its snapshot pruned, and a resumable step |
| Endpoint.Host.SendCompleted | endpoint/endpoint.go:348-400 | the whole disk behind it: the new cursor, and all that was there but for exactly the job's other cursors, step holds and tentative cursors that the cleanup sees and whose destroy does not fail; iff the versions still exist and the cursor can be created, otherwise nothing changes; that is an effect the protocol allows |
| Endpoint.Host.PostReceive | endpoint/endpoint.go:1007-1038 | holds the new snapshot and releases exactly the job's other holds that the cleanup sees and whose release does not fail; releases nothing if the hold fails, and touches nothing else; panics iff no hold is asked for and the snapshot is seen to be held |
| Staleness.ValidRangeExact | endpoint/endpoint_zfs_abstraction.go:352-530 | a range contains what is within its bounds; it is valid iff no bound is a zero that is not allowed and something, with both bounds two createtxgs, is within |
| Staleness.ListStaleFiltering | endpoint/endpoint_zfs_abstraction.go:811-933 | for every since bound and setting of the zero switch: panics iff some step hold's range is not valid, otherwise partitions the listing as multisets into what may be stale and what may live, with the newest cursor and hold live |
| Staleness.StepStaleExact | endpoint/endpoint_zfs_abstraction.go:879-913 | a step hold's range is valid iff its cutoff is not zero, and then it is stale iff not newer than its newest cursor or, without a cursor, older than its newest step hold |
| Staleness.TypesExact | endpoint/endpoint_zfs_abstraction.go:811-933 | per filesystem and job exactly one cursor and one last-received-hold live, a newest one; other types and abstractions without job are never stale |
| Staleness.PanicsExactly | endpoint/endpoint_zfs_abstraction.go:352-465 | without since bound, a panic iff some step hold's newest cursor has createtxg zero and zero is not allowed, or it has no cursor and its newest step hold has createtxg zero |
| Staleness.ZeroCursorPanics | endpoint/endpoint_zfs_abstraction.go:350-361 | a step hold and a cursor with createtxg zero panic iff zero is not allowed |
| Staleness.Idempotent | endpoint/endpoint_zfs_abstraction.go:811-933 | filtering the live ones again finds nothing stale and does not panic |
| Driver.Correlate | replication/driver/replication_driver.go:527-551 | the nested search cuts the plan as the reference does |
| Driver.CutLosesTarget | replication/driver/replication_driver.go:525-552 | the cut ends right before the last match of the highest matching step, fails iff nothing matches, and loses the last step of an unchanged plan |
| Driver.RelateFilesystems | replication/driver/replication_driver.go:406-433 | parents are exactly the proper path prefixes, children the converse |
| Attempt.InvStep | replication/driver/replication_driver.go:488-665 | every step of every goroutine keeps the invariant: who sleeps has a running parent it has looked at or a wakeup waiting |
| Attempt.InvOnRun | replication/driver/replication_driver.go:438-486 | that invariant holds in every state of every run |
| Attempt.NoDeadlock | replication/driver/replication_driver.go:470-634 | in every reachable unfinished state some goroutine can move |
| Attempt.StepDecreases | replication/driver/replication_driver.go:488-665 | every step decreases a well-founded measure, so every attempt ends |
| Attempt.RunsCanFinish | replication/driver/replication_driver.go:438-465 | every run can be continued to one that has finished every filesystem |
| Attempt.SomeRunFinishes | replication/driver/replication_driver.go:438-465 | every configuration has a run that finishes every filesystem |
| Attempt.MaximalRunsFinish | replication/driver/replication_driver.go:438-465 | a run that cannot be continued has finished every filesystem |
| Attempt.AncestorBeforeChild | replication/driver/replication_driver.go:560-634 | no filesystem is in or behind a step unless each ancestor is planned and on the receiver |
| Attempt.StableOnRun | replication/driver/replication_driver.go:573-604 | once on the receiver for a child's check always on it; once finished nothing changes |
| Attempt.FailedAncestor | replication/driver/replication_driver.go:574-618 | an ancestor that ends without being on the receiver makes everything below it fail without a step |
| Attempt.CleanRunCompletes | replication/driver/replication_driver.go:636-663 | without faults and cancellation every filesystem that ends has its step counter behind the last step; `AttemptHistory.CleanRunDoesAll` says the same of the steps that were executed |
| Attempt.GrantsByDate | replication/driver/replication_driver.go:498-516 | slots go to the earliest target date of what waits, planning first |
| Attempt.SleepsForReason | replication/driver/replication_driver.go:560-634 | who sleeps without a wakeup has an ancestor that has neither returned nor completed a step |
| AttemptHistory.StepsInOrder | replication/driver/replication_driver.go:636-663 | over every run the steps executed are the first of the correlated plan, in order, each once, one at a time and none behind a failed one; the step counter counts those that succeeded |
| AttemptHistory.FinishedDidAll | replication/driver/replication_driver.go:636-663 | a filesystem that ends without error has executed every step of its plan, all successfully |
| AttemptHistory.CleanRunDoesAll | replication/driver/replication_driver.go:636-663 | without faults and cancellation every filesystem that ends has executed all steps of what its one planning returned and correlation left |
| AttemptHistory.AncestorFirst | replication/driver/replication_driver.go:560-634 | when a step is executed every ancestor has, by what happened before, arrived on the receiver |
| AttemptHistory.NothingBelowLost | replication/driver/replication_driver.go:574-618 | below an ancestor that ended without arriving on the receiver no step is ever executed |
| AttemptHistory.SleepsThoughPresent | replication/driver/replication_driver.go:471-486 | a run in which a child sleeps without a wakeup although its only ancestor is planned and on the receiver |
| AttemptHistory.ErrorsHaveCauses | replication/driver/replication_driver.go:488-665 | a planning error iff planning or correlation failed; a step error only if the last step failed, the attempt was cancelled or an ancestor was lost; a failed step always is one |
| Attempt.PlanErrorsUnreported | replication/driver/replication_driver.go:778-788 | the error report holds exactly the step errors, never a planning error |
| StepQueue.StepQueue.Enqueue | replication/driver/replication_stepqueue.go:100-112 | panics iff the ident already waits, otherwise adds the request to the heap |
| StepQueue.StepQueue.Wake | replication/driver/replication_stepqueue.go:116-138 | grants iff a slot is free and somebody waits, and then a request of minimal date |
| StepQueue.StepQueue.Pop | replication/driver/replication_stepqueue.go:29-54 | takes a minimal request and keeps the rest in heap order |
| StepQueue.StepQueue.Completed | replication/driver/replication_stepqueue.go:133-137 | frees one slot |
| StepQueue.RequestsConserved | replication/driver/replication_stepqueue.go:70-156 | over every run each request is granted once or waits, and active counts the granted that did not complete, at most the concurrency |
| BufPool.FittingShiftExact | rpc/dataconn/base2bufpool/base2bufpool.go:102-111 | the least shift whose power of two fits; zero for zero and for one byte |
| BufPool.Pool.Get | rpc/dataconn/base2bufpool/base2bufpool.go:113-151 | a buffer of exactly the requested visible size, or a panic: always for one byte, and where allocation is not allowed |
| BufPool.Pool.Put | rpc/dataconn/base2bufpool/base2bufpool.go:153-169 | a freed buffer goes to exactly the list of its size, unless that is full, and is dropped otherwise; the lists stay bounded and of one size |
| FrameConn.HeaderRoundTrip | rpc/dataconn/frameconn/frameconn.go:40-46 | a written header is read back |
| FrameConn.Conn.ReadFrame | rpc/dataconn/frameconn/frameconn.go:97-203 | the reader with header look-ahead behaves as one without, on every byte stream; an empty frame is returned without taking a byte behind its header; what that one returns is stated by `FrameConn.FramesRoundTrip`, `FrameConn.CutRoundTrip` and `FrameConn.DeliveredExact` |
| FrameConn.FramesRoundTrip | rpc/dataconn/frameconn/frameconn.go:97-224 | frames written up to a frame boundary are read back in order, then the end error |
| FrameConn.CutRoundTrip | rpc/dataconn/frameconn/frameconn.go:118-203 | whatever byte the wire is cut at, the reader returns a prefix of the frames, each with its whole payload, then an error |
| FrameConn.DeliveredExact | rpc/dataconn/frameconn/frameconn.go:165-203 | which prefix and which error: all complete frames, but for a last one with payload that part of a header follows; EOF turns into unexpected EOF iff the wire ends inside a header that is read on its own |
| FrameConn.SingleByteFramePanics | rpc/dataconn/frameconn/frameconn.go:134-137 | the first frame with a payload of one byte panics the reader |
| FrameConn.ResetShutsDown | rpc/dataconn/frameconn/frameconn.go:97-114 | from a reset frame on every read returns the shutdown error |
| Heartbeat.Conn.ReadFrame | rpc/dataconn/heartbeatconn/heartbeatconn.go:116-142 | the loop returns the next frame that is no heartbeat, or the error |
| Heartbeat.ReadFrames | rpc/dataconn/stream/stream.go:218-232 | the channel gets all results up to the first error |
| Heartbeat.HeartbeatsInvisible | rpc/dataconn/heartbeatconn/heartbeatconn.go:116-142 | however heartbeats are interleaved, the reader gets exactly the other frames, in order, then the end error |
| Heartbeat.UnknownTypeEndsReads | rpc/dataconn/heartbeatconn/heartbeatconn.go:116-142 | a frame of a reserved type that is no heartbeat is never skipped: it ends the reads with an error |
| Heartbeat.HeartbeatsInvisibleOnCut | rpc/dataconn/heartbeatconn/heartbeatconn.go:116-142 | on a wire that is cut at any byte the reader gets exactly the delivered frames without heartbeats, then the error |
| Stream.TypesPartition | rpc/dataconn/stream/stream.go:41-56 | the frame types of the layers are disjoint |
| Stream.DoWriteStream | rpc/dataconn/stream/stream.go:76-148 | the frames sent are those of the stream up to the connection's failure; which error is returned |
| Stream.ReadStream | rpc/dataconn/stream/stream.go:238-289 | with its recursion for error trailers, does what the reference does; a write error iff a write of the receiver fails, nil iff an end frame comes right behind the data, a connection's error iff that is what comes first |
| Stream.ReceivedExact | rpc/dataconn/stream/stream.go:238-289 | for every channel: the bytes are those of the leading data frames, and the result follows from what stops the data or the error trailer behind it |
| Stream.OkExact | rpc/dataconn/stream/stream.go:238-289 | a stream is taken for complete iff an end frame comes right behind its data |
| Stream.ConnErrExact | rpc/dataconn/stream/stream.go:238-289 | a connection's error is reported iff it comes before the end of the data or of the error trailer |
| Stream.ReceivedStream | rpc/dataconn/stream/stream.go:238-289 | handed the frames of a stream, the reader yields its bytes and its end and leaves what follows |
| Stream.StreamEndToEnd | rpc/dataconn/stream/stream.go:76-289 | for every source and interleaving of heartbeats the receiver gets exactly its bytes, and nil or exactly its error text |
| Stream.TruncatedStream | rpc/dataconn/stream/stream.go:238-289 | cut between any two frames, a stream ends with the connection's error behind a prefix of its content, the whole iff all data frames came |
| Stream.TruncatedEndToEnd | rpc/dataconn/stream/stream.go:76-289 | over all layers, with heartbeats and the wire cut at any byte: the whole stream and its end iff all its frames are delivered, otherwise the connection's error behind a prefix of the content |
| Stream.ReaderPanicsExactly | rpc/dataconn/stream/stream.go:92-110 | the reader panics iff content or error text leaves a chunk of one byte |
| DestroyBatch.SettledDetermines | zfs/versions_destroy.go:87-91 | the effect of destroying one by one is unique, so what is proved to have it equals it |
| DestroyBatch.SettledParts | zfs/versions_destroy.go:160-167 | destroying two disjoint parts one after the other is destroying both |
| DestroyBatch.Zfs.DestroyBatchedRec | zfs/versions_destroy.go:148-204 | whole, halved, stripped or single, the final snapshots and every outcome are those of destroying one by one; the recursion ends |
| DestroyBatch.Strip | zfs/versions_destroy.go:171-188 | the batch is partitioned by the reported names |
| DestroyBatch.BuildBatches | zfs/versions_destroy.go:100-127 | the batches hold every request once, sorted, one filesystem each, within the maximum, and one per filesystem without maximum |
| DestroyBatch.DoDestroy | zfs/versions_destroy.go:56-85 | every request gets the outcome of destroying one by one, whichever way is taken; all fail if the feature check fails |
| Chunking.Chunker.Read | util/chunking/chunking.go:121-204 | each read returns the next bytes of the encoding or fills the header buffer; at its end EOF, or exactly the error of the source's failing read |
| Chunking.ChunkAll | util/chunking/chunking.go:103-204 | reading to the end with any sequence of buffer sizes yields exactly the encoding of the source and its end |
| Chunking.Unchunker.Read | util/chunking/chunking.go:26-69 | each read returns the next bytes of the decoded wire, or its end when there are none |
| Chunking.UnchunkAll | util/chunking/chunking.go:26-69 | reading to the end, for any buffer and read sizes, yields exactly the decoded wire and how it ends |
| Chunking.Transfer | util/chunking/chunking_test.go:49-74 | through chunker and unchunker comes back the source's content up to its first empty read, and no error; the source's error is known to the sender only |
| Chunking.RoundTripExact | util/chunking/chunking.go:26-204 | what comes back is the source's content iff nothing follows an empty read, whatever follows on the wire |
| Chunking.CutWire | util/chunking/chunking.go:26-69 | a wire cut inside a chunk yields all that came of it, and an error iff it was cut inside the chunk's length |
| CircLog.NextPow2Int | util/circlog/circlog.go:50-72 | the bit smearing yields the least power of two not below its argument, a panic iff there is none among 64 bit ints |
| CircLog.CircularLog.Write | util/circlog/circlog.go:74-124 | appends the data, or marker and tail of it, to the stream; the log always shows the end of the stream and loses nothing below its maximum size |
| CircLog.EffectiveExact | util/circlog/circlog.go:104-112 | a write that fits is kept whole; of a larger one the marker and the end, as long as the log |
| CircLog.CircularLog.Bytes | util/circlog/circlog.go:157-171 | the last bytes of everything written, as many as the size |
| CircLog.CircularLog.Len | util/circlog/circlog.go:132-140 | how many bytes are shown |
| CircLog.OverwriteShows | util/circlog/circlog.go:113-122 | overwriting from the cursor on, around the end, keeps showing the last bytes |
| RetentionGrid.BucketsTile | pruning/retentiongrid/retentiongrid.go:55-76 | the buckets tile the window that ends now: no gap, no overlap |
| RetentionGrid.RemoveYoungerExceeding | pruning/retentiongrid/retentiongrid.go:86-103 | all but the oldest `keepCount` of a bucket |
| RetentionGrid.FitEntriesWithNow | pruning/retentiongrid/retentiongrid.go:105-142 | the remove list holds once each exactly what is older than the window and, per bucket, all but its oldest |
| RetentionGrid.FitEntries | pruning/retentiongrid/retentiongrid.go:32-46 | the same with the youngest as now; for non-negative lengths something is kept iff some bucket has an extent |
| RetentionGrid.SurvivalExact | pruning/retentiongrid/retentiongrid.go:55-142 | that, of any result that fits the grid |
| RetentionGrid.EmptyGridRemovesAll | pruning/retentiongrid/retentiongrid.go:70-76 | a grid without extent removes all that is not from the future |
| Pruning.PartitionSnapList | pruning/keep_helpers.go:13-22 | exactly the matching and the other snapshots, without duplicates |
| Pruning.KeepLastNRule | pruning/keep_last_n.go:35-62 | everything that does not match, and all matches but the last n by date, then name |
| Pruning.KeepGridRule | pruning/keep_grid.go:91-116 | everything that does not match, and what the grid removes of the matches |
| Pruning.KeepRegexRule | pruning/keep_regex.go:30-38 | exactly what does not match, or with negate what does |
| Pruning.KeepNotReplicatedRule | pruning/keep_not_replicated.go:5-9 | exactly the replicated snapshots |
| Pruning.KeepRule | pruning/pruning.go:12-14 | every rule's destroy list is duplicate-free, from the given snapshots, and what the rule promises |
| Pruning.GridDestroys | pruning/keep_grid.go:104-115 | what the grid removes with the youngest match as now |
| Pruning.PruneSnapshots | pruning/pruning.go:23-45 | the destroy list is duplicate-free and exactly the intersection of the rules' lists; empty without rules |
| Pruner.MarkReplicated | daemon/pruner/pruner.go:442-479 | replicated is what is older than the cursor snapshot, or that itself where configured, and nothing if it is missing; the last error cannot occur |
| Pruner.PlanFilesystem | daemon/pruner/pruner.go:418-482 | snapshots are marked replicated, with distinct createtxgs iff created before the cursor snapshot, or it itself where configured; the destroy list is the intersection of the rules' lists; with a not-replicated rule nothing newer than the cursor snapshot, and nothing at all if the target lacks it; an error iff a creation date is invalid |
| Pruner.ExecQueue.Put | daemon/pruner/pruner_queue.go:58-82 | completed if done or failed, else pending, sorted by path |
| Pruner.ExecQueue.Pop | daemon/pruner/pruner_queue.go:49-56 | the first pending filesystem |
| Pruner.CheckResults | daemon/pruner/pruner.go:546-586 | no error iff the target confirmed every snapshot of the request |
| Pruner.Execute | daemon/pruner/pruner.go:485-526 | every planned filesystem is executed exactly once; nothing stays pending; done iff no filesystem that was not skipped failed |

## Left out

- ZFS commands, their output, placeholders, encryption and resume token decoding: external program, represented by the assumptions above.
- The byte contents of send streams, bandwidth limits, size estimates, metrics, logging, reports and tracing.
- Transports, TLS, the RPC layer above streams, connection shutdown beyond the reset frame, and read and write deadlines.
- `timeoutconn` vectored reads and writes: taken to fill buffers in order and to report the end of the wire.
- Configuration parsing, status rendering, snapshotting jobs and hook plans.
- Several attempts of one run, reconnecting and error classification: nothing is claimed about success across attempts.
- `CircularLog.Reset`, which does not clear the count of written bytes.
- Aliasing: `Bytes` of the circular log and heap items of the step queue are values here.
- Data races: each operation under a lock, and each cache operation, is one atomic step.
- Integer widths of byte counters and of the log's total count; strings are compared by character, not by UTF-8 byte.
- Snapshot names with commas, which ZFS does not allow, are not considered in batched destroys.
- Pruning.KeepRule: regular expressions are arbitrary predicates, and ties in date and name are broken in any order.
- Chunking.Chunker.Read: says nothing about reads behind the end of a source that never reported EOF, or behind an error.
- Endpoint.Host.Send: starts from validated arguments whose versions exist, and ends before the stream is opened.
- Endpoint.TryBatchDestroy: while it waits for a load by others the disk does not change, and only what is on disk or was in the cache gets into the cache.
- Planner.DoPlanning: the error under policy `fail` is represented by the conflict behind it, not by its text.
- Heartbeat.Conn.ReadFrame: renewing the write deadline after a heartbeat is taken to succeed.
- DestroyBatch.DoDestroy: requires the requests to name distinct snapshots and to have distinct result addresses.
