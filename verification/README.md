# serial-nexus in Dafny

serial-nexus routes serial console streams through a validated graph of nodes. This project models the
parts of it where correctness is decided by logic rather than by the operating system, and proves what
those parts promise.

| module | what it models |
|---|---|
| `CycleSearch`, `Graph`, `GraphValidation` | the graph validator: naming, reference and facing rules, one producer, and the iterative three-colour cycle search |
| `Lock`, `LockLaws`, `LockRuns`, `EndpointLock` | the write lock of a host-facing endpoint: its operations and what each answers and changes, whole runs of them, and the object that performs them in place |
| `Config`, `ConfigShapes`, `EdgeRules`, `LockComposition` | configurations: node shapes and which way their endpoints face, effective write modes, the kind-dependent edge rules and what they mean for the locks, and what a clean configuration guarantees about its locks |
| `PatternWait`, `PatternReports`, `ScanWindow` | the pattern wait: matching across chunk boundaries, gaps and a replayed ring with a bounded window, and when its report depends on the chunk boundaries |
| `DataPlane`, `TargetwardPath` | the targetward path: an origin, a chain of holdover transforms of any length, and a boundary that can be busy |
| `Utf8`, `UnicodeText`, `Envelope`, `Hello`, `EventStream`, `FrameCodec` | the envelope wire format, its hello, the encoders and the streaming decoder |
| `RequestLines`, `Connection`, `ConnectionReplies`, `ConnectionLoop` | a control connection: the capped line reader, the request protocol, which answer each line gets, and the loop that runs it |
| `CharMap`, `MapDirection` | the map node: ordered byte rules and the table they compile to |
| `Resolver`, `Ports`, `DeviceFiles`, `DevicePaths` | device identities over a snapshot of the device and sysfs trees, and what they are in terms of the files there |
| `Basics`, `Text` | 64-bit counters, joining sequences, trimming and splitting text |

Code that the repository writes as expressions is written as functions and lemmas. Code that updates state
in place is written as classes and methods with loops, each proved against a function of the old state; the
properties of runs are then proved about those functions.

What comes from outside is a parameter or a list of events: the order in which a hash table is iterated,
the schedule of offers and busy toggles, how a stream is cut into chunks, when a call is cancelled, what
the daemon answers to a dispatched verb, when a socket accepts a line, and the contents of `/dev` and
sysfs. A property stated over such a list holds for every list.

Where the code and its documentation or an obvious expectation differ, the model follows the code:

- An open or close frame may carry a payload, and a hello bytes behind its announcements; decoding ignores
  them. Decoding and re-encoding is the identity exactly when there are none
  (`Envelope.DecodeThenEncode`, `Hello.DecodeThenEncode`).
- The documentation calls "which pattern fired" a function of the stream and the request. Whether one
  fires is; which one can depend on how the stream is cut, because a literal inside another can be
  complete first (`PatternReports.WhichLiteralDependsOnChunking`). It never does exactly when no literal
  that can win, that is none with an earlier literal of the request as its prefix, has a literal inside it
  that ends before it (`PatternReports.IndependentIffSettles`).
- The documentation of `LineRead::TooLong` speaks of a line that reached the cap; the code accepts a line
  of exactly the cap and refuses a longer one.
- A parsed address loses a trailing slash with nothing behind it, and a displayed address parses back
  exactly when the node name has no slash (`Graph.DisplayParse`, `Graph.ParseDisplay`).
- The lock's generation never decreases only modulo 2^64; the lease guard is stated with that bound
  (`LockRuns.StaleLeaseNeverMatches`).
- `register` overwrites an existing entry. That keeps the lock's invariant exactly unless it silences the
  holder or a waiter, or hands the free lock to an origin that is still queued
  (`Lock.RegisterKeepsInvIff`). Runs may register a present id whenever it does; an absent id, which is all
  the documentation of the origin id allows, always may.
- The window's counters of scanned bytes and gaps are modelled as wrapping 64-bit additions.

## Model

| member | source | states |
|---|---|---|
| `CycleSearch.FindCycle` | core/src/graph.rs:803-862 | for any nodes, arcs and order of start nodes: no cycle is returned exactly when no closed walk exists, and a returned one is a simple cycle whose first and last nodes agree and whose neighbours are joined by arcs |
| `CycleSearch.Explore` | core/src/graph.rs:826-860 | from a white start node the stack search ends with a simple cycle, or with everything it reached black and the finished nodes still in an order in which every arc points backwards |
| `CycleSearch.BuildAdjacency` | core/src/graph.rs:809-815 | every node has a successor list holding exactly its arcs |
| `CycleSearch.FinishingOrderIsAcyclic` | core/src/graph.rs:803-862 | nodes that can all be listed with every arc pointing backwards carry no closed walk |
| `CycleSearch.BackArcClosesCycle` | core/src/graph.rs:844-851 | an arc back into the current path closes a simple cycle of it |
| `Graph.ParseDisplay` | core/src/graph.rs:157-175 | a displayed address parses back exactly when its node name has no slash |
| `Graph.DisplayParse` | core/src/graph.rs:157-175 | a parsed address displays as its text exactly when the text is not a slash-free name with one trailing slash |
| `Graph.DisplayInjective` | core/src/graph.rs:157-165 | two addresses with legal node names never display alike |
| `Graph.ResolveIff` | core/src/graph.rs:626-629 | an address resolves exactly when its node exists and exposes the endpoint, to that endpoint; otherwise the error tells which of the two is missing |
| `Graph.OrientIffJoins` | core/src/graph.rs:734-750 | an edge is oriented from host to target exactly when one of its two ends is an endpoint facing host and the other one facing target, and then that way round |
| `GraphValidation.Validate` | core/src/graph.rs:634-771 | the errors other than a cycle are exactly the violations of the model, a cycle is reported exactly when the arcs have one, and there are no errors exactly when the model is well formed: legal unique names, every edge between an endpoint facing host and one facing target, no target-facing endpoint with two edges, no closed walk of arcs from host nodes to target nodes |
| `GraphValidation.NoViolationIffRules` | core/src/graph.rs:634-763 | no violation is left exactly when names are legal and locally unique, every edge joins one host to one target endpoint, and no target endpoint has two edges |
| `GraphValidation.CheckNames` | core/src/graph.rs:641-715 | the naming errors are exactly the blank, slashed, oversize, empty and repeated names |
| `UnicodeText.ByteLengthIsEncoded` | core/src/graph.rs:668-673 | the length the cap on names compares is that of the name's UTF-8 bytes |
| `GraphValidation.CheckEdges` | core/src/graph.rs:719-753 | the edge errors are exactly those of edges that do not resolve or do not join an endpoint facing host with one facing target, with the per-endpoint tallies and the host-to-target arcs of the rest |
| `GraphValidation.CheckProducers` | core/src/graph.rs:756-763 | exactly one error for each target endpoint with more than one edge, carrying the count |
| `GraphValidation.OneProducerIffCountsSmall` | core/src/graph.rs:751-763 | tallies of at most one are the same as no two edges sharing a target endpoint |
| `GraphValidation.EdgeErrorIffNotOriented` | core/src/graph.rs:722-742 | an edge is refused exactly when its ends are not an endpoint facing host and one facing target, in either order |
| `GraphValidation.EdgeErrorIsViolation` | core/src/graph.rs:722-742 | the error of a refused edge: the first end that does not exist, or the facing both ends share |
| `GraphValidation.ArcsAreJoins` | core/src/graph.rs:746-752 | the collected arcs are exactly the node pairs of edges whose first node's endpoint faces host and second's target |
| `GraphValidation.ArcsOverNodes` | core/src/graph.rs:746-752 | every collected arc joins declared nodes, so the search never misses a key |
| `Lock.StepKeepsInv` | core/src/lock.rs:154-436 | every operation, a registration that is registrable included, keeps: the holder is a registered writer and not queued, waiters are distinct registered writers, and without arbitration nobody holds |
| `Lock.RegisterKeepsInvIff` | core/src/lock.rs:154-170 | registering any id, present or not, keeps that invariant exactly unless it makes the holder or a waiter a non-writer or grants the free lock to an origin still queued |
| `Lock.FreshIdIsRegistrable` | core/src/lock.rs:28-34 | an absent id can always be registered |
| `Lock.HeldOriginOtherThan` | core/src/lock.rs:347-351 | finds a held origin other than the given one exactly when one is registered |
| `LockLaws.RegisterAttaches` | core/src/lock.rs:154-170 | the entry is the new one, nobody else's changes, and a held origin becomes holder of a free exclusive lock, nobody otherwise |
| `LockLaws.UnregisterDetaches` | core/src/lock.rs:176-185 | the origin leaves the table, the queue and the lock, and everybody else stays where they were |
| `LockLaws.EnqueueJoinsLast` | core/src/lock.rs:275-284 | a writer that neither holds nor waits joins the queue at its end; for anyone else nothing changes |
| `LockLaws.DequeueLeaves` | core/src/lock.rs:289-291 | the origin is out of the queue, the others keep their order, nothing else changes |
| `LockLaws.AcquireAnswers` | core/src/lock.rs:214-269 | each answer of acquire exactly when it is due; a denial names an origin that stands before the asker: the holder, or on a free lock a held origin or else the head of the queue |
| `LockLaws.AcquireChanges` | core/src/lock.rs:214-269 | a grant hands the lock over and takes the grantee off the queue; any other answer changes nothing |
| `LockLaws.StealAnswers` | core/src/lock.rs:300-334 | each answer of steal exactly when it is due; a theft names the ousted holder and hands the lock to the thief |
| `LockLaws.OnlyHolderReleases` | core/src/lock.rs:380-387 | release frees the lock for its holder and changes nothing for anyone else |
| `LockLaws.OnlyHeldReclaims` | core/src/lock.rs:361-375 | reclaiming succeeds exactly for a held origin on a lock nobody holds, and is a grant there |
| `LockLaws.OnlyHolderRenews` | core/src/lock.rs:398-405 | only the holder renews, and only the generation moves |
| `LockLaws.FirstServed` | core/src/lock.rs:214-269 | the first n waiters of a free lock, taking turns, are granted in order and the rest stays queued |
| `LockLaws.WaitsIff` | core/src/lock.rs:154-405 | after any operation an origin waits exactly when it just enqueued as a writer that did not hold, or waited and was neither dequeued, unregistered nor handed the lock |
| `LockLaws.HoldsIff` | core/src/lock.rs:154-405 | after any operation an origin holds exactly when it was just handed the lock by its own registration, acquire, steal or reclaim, or held it and neither released, left nor was stolen from |
| `LockLaws.DeniedComesToTurn` | core/src/lock.rs:275-284 | in every reachable state without held origins a denied writer that enqueues is last; once the holder released and everybody ahead took a turn it is alone in the queue, is granted and holds |
| `LockRuns.ReachableStates` | core/src/lock.rs:136-436 | in every state reachable by registrable registrations and any other operations the invariant holds, under exclusive arbitration the write gate admits the holder alone, and under free-for-all it admits every writer while nobody holds |
| `LockRuns.SnapshotFlagsHolder` | core/src/lock.rs:445-470 | the snapshot flags exactly one origin when the lock is held, under the reported holder's label, and none when it is free |
| `LockRuns.SnapshotOrigins` | core/src/lock.rs:445-470 | one snapshot entry for each origin in table order, with its label, write mode, purge count and holder flag |
| `LockRuns.SnapshotListsWaiters` | core/src/lock.rs:445-470 | every waiter is listed in queue order, also when labels repeat |
| `LockRuns.WaitersNeverSwap` | core/src/lock.rs:275-341 | over any run two origins that stay queued keep their order |
| `LockRuns.BoundedWaiting` | core/src/lock.rs:214-291 | without steals and held origins, the fresh grants of a run plus the waiter's new queue index never exceed its old index |
| `LockRuns.QueueServedInOrder` | core/src/lock.rs:214-269 | a free lock serves its whole queue first come first served, each once, and ends free with nobody waiting |
| `LockRuns.HeldOutranksQueue` | core/src/lock.rs:154-170 | while a held origin is registered, only a steal makes an origin that is not held the holder |
| `LockRuns.HeldOutranksQueueInRun` | core/src/lock.rs:214-269 | over a run with a held origin registered throughout, no steal and no demotion of the holder, the lock is free or held by a held origin |
| `LockRuns.FreeLockIsTakeable` | core/src/lock.rs:214-269 | a free lock with any writer registered is granted to some registered origin that asks |
| `LockRuns.WhoTakesFreeLock` | core/src/lock.rs:214-269 | exactly who is granted a free lock: a held origin, or without one the queue's head, or anyone when nobody waits |
| `LockRuns.AcquireAgreesWithReclaim` | core/src/lock.rs:361-375 | for a held origin on a free lock, acquiring and reclaiming reach the same state |
| `LockRuns.GenerationCountsAdvances` | core/src/lock.rs:398-411 | the generation is the number of grants, steals and renewals modulo 2^64 |
| `LockRuns.StaleLeaseNeverMatches` | core/src/lock.rs:117-120 | with fewer than 2^64 advances between two states, equal generations mean none lay between and the holder is the earlier one or nobody |
| `LockRuns.RecordSurvives` | core/src/lock.rs:300-334 | the steal record stays, over any run, until the next steal from a holder |
| `LockRuns.TheftIsOnRecord` | core/src/lock.rs:300-334 | after a steal and any run without another the snapshot still names victim and thief as labelled then, and the steal itself changed the queue only by the thief |
| `LockRuns.PurgesAccumulate` | core/src/lock.rs:432-436 | over any run while an origin stays attached, its purge count is the saturated sum of its own purges |
| `EndpointLock.EndpointLock.constructor` | core/src/lock.rs:136-145 | a fresh lock has no origins, holder or waiters |
| `EndpointLock.EndpointLock.Register` | core/src/lock.rs:154-170 | the object's new state is the register operation on its old state |
| `EndpointLock.EndpointLock.Unregister` | core/src/lock.rs:176-185 | the new state is the unregister operation on the old, and the answer tells whether it freed the lock |
| `EndpointLock.EndpointLock.MayWrite` | core/src/lock.rs:191-202 | answers the write gate |
| `EndpointLock.EndpointLock.Acquire` | core/src/lock.rs:214-269 | answer and new state are those of the acquire operation |
| `EndpointLock.EndpointLock.Enqueue` | core/src/lock.rs:275-284 | the new state is the enqueue operation on the old: a writer that neither holds nor waits is then last in the queue (`LockLaws.EnqueueJoinsLast`), and comes to its turn (`LockLaws.DeniedComesToTurn`) |
| `EndpointLock.EndpointLock.Dequeue` | core/src/lock.rs:289-291 | the new state is the dequeue operation on the old |
| `EndpointLock.EndpointLock.Steal` | core/src/lock.rs:300-334 | answer and new state are those of the steal operation |
| `EndpointLock.EndpointLock.GrantTo` | core/src/lock.rs:337-341 | the new holder leaves the queue and the generation advances |
| `EndpointLock.EndpointLock.HeldOriginOtherThan` | core/src/lock.rs:347-351 | the scan of the table finds the first held origin other than the given one |
| `EndpointLock.EndpointLock.ReclaimHeld` | core/src/lock.rs:361-375 | answer and new state are those of the reclaim operation |
| `EndpointLock.EndpointLock.Release` | core/src/lock.rs:380-387 | answer and new state are those of the release operation |
| `EndpointLock.EndpointLock.Renew` | core/src/lock.rs:398-405 | answer and new state are those of the renew operation |
| `EndpointLock.EndpointLock.RecordPurge` | core/src/lock.rs:432-436 | the purge count saturates and nothing else changes |
| `Config.Validate` | core/src/config.rs:280-575 | the errors are exactly the violations of node `i`, of edge `i` and of the model, a cycle is reported exactly when there is one, and there are no errors exactly when the configuration is clean |
| `Config.CheckNodes` | core/src/config.rs:282-485 | repeated names, target-facing serials, and legs with no channel or an unnamed one are reported, and nothing else |
| `Config.CheckMultiplexed` | core/src/config.rs:514-542 | an on-demand edge into a codec's target-facing multiplexed side on an arbitrated endpoint is reported, and nothing else |
| `Config.CheckHeld` | core/src/config.rs:550-570 | a second effectively held edge at an arbitrated endpoint is reported against the first, and the table still holds each endpoint's first held edge |
| `Config.CheckEdges` | core/src/config.rs:512-571 | over all edges, exactly the two kinds of violation are reported |
| `Config.FirstTargetFinds` | core/src/config.rs:558-569 | the table of held edges has an entry for an endpoint exactly when a held edge was met there |
| `Config.BuildShape` | core/src/config.rs:943-1025 | the endpoints collected channel by channel are the node's shape, whose names, facings and policies are stated kind by kind in `ConfigShapes` |
| `Config.BuildModel` | core/src/config.rs:133-146 | the model holds the shape of the last node of each name, and the edges in order |
| `Config.NodeNamedIsFirst` | core/src/config.rs:163-165 | the node found under a name is the first one declared with it |
| `ConfigShapes.CodecFaces` | core/src/config.rs:954-985 | a codec exposes its default endpoint and its channels and nothing else; the multiplexed side faces as declared and every channel the other way, host-facing ones with the node's policy |
| `ConfigShapes.LegFaces` | core/src/config.rs:986-1011 | a leg exposes its channels and nothing else, all facing as declared; a sound one has no default endpoint |
| `ConfigShapes.MapFaces` | core/src/config.rs:1012-1024 | a map exposes its mapped side, facing host with the node's policy, and its raw side, facing target |
| `ConfigShapes.SingleFaces` | core/src/config.rs:943-951 | a serial's one endpoint faces as declared; a pty's and a log's face target |
| `ConfigShapes.EdgeEndsIff` | core/src/config.rs:182-191 | the host and target ends of an edge are decided by the facings of its two endpoints alone |
| `ConfigShapes.FacingIsExposed` | core/src/config.rs:170-175 | the facing of an address is that of the endpoint its node exposes |
| `ConfigShapes.CodecTurnsEdges` | core/src/config.rs:954-985 | an edge at a codec's multiplexed side and an edge at one of its channels meet the codec from opposite ends, the first with its host end exactly when the codec is declared to face host |
| `ConfigShapes.DemultiplexerFeedsPty` | core/src/config.rs:954-985 | an edge between a demultiplexer's channel and a pty runs from the channel to the pty, whichever way it is written |
| `ConfigShapes.EffectiveModeIff` | core/src/config.rs:252-266 | an edge is effectively never exactly when declared so or at a log, and effectively held exactly when declared so or on-demand at a map's raw side |
| `Config.FirstTargetIsFirst` | core/src/config.rs:558-569 | the table's entry for an endpoint is that of the first held edge met there |
| `EdgeRules.ArbitratesIff` | core/src/config.rs:228-230 | the policy the edge rules consult is that of the endpoint's own lock |
| `EdgeRules.MultiplexedIff` | core/src/config.rs:209-211 | an edge's target end is a multiplexed side exactly when it is at a codec that demultiplexes |
| `EdgeRules.ParksIff` | core/src/config.rs:514-542 | an edge is refused as parking exactly when it feeds a demultiplexer and a pump that reclaims before it writes could never write through the endpoint's lock, even alone |
| `EdgeRules.HeldAtIff` | core/src/config.rs:550-557 | an edge counts as held at an endpoint exactly when registering it alone on the endpoint's lock makes it the holder |
| `EdgeRules.ConflictShutsOut` | core/src/config.rs:543-570 | of two edges held at one endpoint the later registered is a writer that may not write and cannot reclaim |
| `LockComposition.EndsAgree` | core/src/config.rs:182-191 | with unique names the configuration orients every edge as the model does, although one looks up the first node of a name and the other keeps the last |
| `LockComposition.HostEndpointPolicy` | core/src/config.rs:228-230 | a host-facing endpoint is treated as arbitrated exactly when its own lock is exclusive |
| `LockComposition.CleanEdges` | core/src/config.rs:182-266 | in a clean configuration every edge has a host and a target end, an arbitrated endpoint has at most one effectively held edge, and a multiplexed edge there is held or never, also effectively |
| `LockComposition.RegistrationComposes` | core/src/lock.rs:154-170 | registering any list of distinct origins on a fresh lock leaves each with its mode, and the lock held by a held one exactly when it is exclusive and there is one |
| `LockComposition.HeldOriginHolds` | core/src/config.rs:512-571 | registering the edges of a host endpoint of a clean configuration in any order on the lock its shape gives it: arbitrated, the held edge if any is holder and sole writer and otherwise the lock is free; not arbitrated, nobody holds it and every writer may write |
| `LockComposition.LogNeverWrites` | core/src/config.rs:252-266 | an edge into a log is never let through its endpoint's lock, whatever it declares |
| `LockComposition.MapOwnsItsWrites` | core/src/config.rs:252-266 | a map's raw edge that is not declared never may write in a clean configuration, and holds the lock of an arbitrated endpoint |
| `PatternWait.MinLookback` | daemon/src/pattern.rs:98-106 | the length of the longest literal, and at least one |
| `PatternWait.EarliestIsLeftmost` | daemon/src/pattern.rs:331-337 | a hit is found exactly when some literal occurs; none occurs further left, and none ahead of it in the request at the same place |
| `PatternWait.EventIsExact` | daemon/src/pattern.rs:449-524 | after one seed or chunk the window answers nothing exactly when no literal occurs in any gap-free segment so far, and then still holds the last bytes of the current one; a report is of the leftmost occurrence, the first in the request among equal starts, with its offsets and its context |
| `PatternWait.ContextInWindow` | daemon/src/pattern.rs:498-515 | the context of a report is the window's bytes from half the budget before the match, or from its first byte, to half the budget behind it, or its last byte, cut to the budget; its offset is that of its first byte |
| `PatternReports.CountersAreExact` | daemon/src/pattern.rs:449-486 | a wait still open has counted every byte taken and every gap modulo 2^64, and every byte lost in gaps up to saturation |
| `PatternWait.WatchIsExact` | daemon/src/pattern.rs:413-524 | over any seeds, chunks and gaps the wait is open exactly when no literal occurs in a gap-free segment observed so far; while open the window has at most the lookback and ends where the stream ends; a report comes with the event that completed the occurrence and is of the leftmost one, the first in the request among equal starts; its context is the segment's bytes from at most half the budget before the match to half behind it, cut to the budget |
| `PatternReports.SingleLiteralIsFirst` | daemon/src/pattern.rs:470-515 | for one literal the report is of its first occurrence in the observed stream, whatever the schedule |
| `PatternReports.ChunkingIsIrrelevant` | daemon/src/pattern.rs:470-486 | two schedules that observe the same stream both match or both stay open, whatever the request |
| `PatternReports.ChunkingKeepsReport` | daemon/src/pattern.rs:470-515 | for a request that settles, two schedules that observe the same stream report the same pattern and offsets, or both stay open |
| `PatternReports.IndependentIffSettles` | daemon/src/pattern.rs:234-237 | the report depends on the stream alone, in every state and for every two schedules, exactly when no unshadowed literal of the request contains a literal that ends before it |
| `PatternReports.HitStands` | daemon/src/pattern.rs:331-337 | for a request that settles, a hit is not changed by the bytes that follow |
| `PatternReports.ReportIsOfStream` | daemon/src/pattern.rs:449-515 | for a request that settles the report is of the leftmost hit in the first gap-free segment that has one |
| `PatternReports.OvertakenIsDependent` | daemon/src/pattern.rs:470-486 | any unshadowed literal with one that ends inside it gives a stream whose report depends on the cut |
| `PatternReports.WholeReports` | daemon/src/pattern.rs:331-337 | the stream that spells an unshadowed literal, taken whole, reports that literal to its end |
| `PatternReports.CutReports` | daemon/src/pattern.rs:470-486 | cut behind a literal inside it, that stream reports something that ends no later than the cut |
| `PatternReports.WhichLiteralDependsOnChunking` | daemon/src/pattern.rs:234-237 | a request that does not settle, and two cuts of one stream that report different literals of it |
| `ScanWindow.ScanWindow.constructor` | daemon/src/pattern.rs:415-426 | a new window is empty at its base and in step with an empty stream |
| `ScanWindow.ScanWindow.Seed` | daemon/src/pattern.rs:449-463 | the window restarts from the ring; it answers nothing exactly when the stream is clean, and otherwise describes the leftmost occurrence, the first in the request among equals |
| `ScanWindow.ScanWindow.Feed` | daemon/src/pattern.rs:470-486 | a chunk extends the window, a gap empties it first; it answers nothing exactly when the stream is clean, and otherwise describes the leftmost occurrence, the first in the request among equals |
| `ScanWindow.ScanWindow.Scan` | daemon/src/pattern.rs:498-515 | the leftmost hit in the window, lifted to stream offsets with its context |
| `ScanWindow.ScanWindow.Trim` | daemon/src/pattern.rs:518-524 | at most the lookback is kept and the base moves with the dropped bytes |
| `DataPlane.RunConserves` | core/src/data.rs:246-395 | under any schedule of offers, resumes and busy toggles on a chain of any depth, every offered chunk is received, held or pending, once and in order; each transform holds at most one; the origin is paused exactly while chunks are pending |
| `DataPlane.LocatedInBytes` | core/src/data.rs:246-395 | received bytes, then held chunks deepest first, then pending chunks, are all bytes offered |
| `DataPlane.DeliverMoves` | core/src/data.rs:302-317 | a busy answer changes nothing, an accepted chunk joins the end of the line |
| `DataPlane.FlushMoves` | core/src/data.rs:319-324 | draining keeps every chunk and its order |
| `DataPlane.BusyIsLastSet` | core/src/data.rs:237-325 | under any schedule the boundary is busy exactly when the schedule last said so |
| `DataPlane.ResumeDrainsAll` | core/src/data.rs:373-394 | after any schedule that leaves the boundary ready, one resume delivers everything that was ever offered |
| `DataPlane.BusyChainAbsorbsDepth` | core/src/data.rs:263-325 | an empty chain of n transforms before a boundary that stays busy absorbs exactly n chunks and then pauses the origin |
| `DataPlane.HeldWithinDepth` | core/src/data.rs:199-221 | a chain never holds more chunks than it has transforms |
| `TargetwardPath.Sink.Deliver` | core/src/data.rs:302-317 | the linked objects do what delivery does to the chain they stand for |
| `TargetwardPath.Sink.Flush` | core/src/data.rs:319-324 | the linked objects do what draining does to the chain |
| `TargetwardPath.Sink.FlushHoldover` | core/src/data.rs:286-298 | one transform's holdover is retried and kept if refused |
| `TargetwardPath.Sink.SetBusy` | core/src/data.rs:237-239 | only the boundary's flag changes |
| `TargetwardPath.Origin.Pump` | core/src/data.rs:377-394 | the loop hands over pending chunks until one is refused, as the draining function says |
| `TargetwardPath.Origin.Offer` | core/src/data.rs:366-370 | the chunk is counted, queued and pumped |
| `TargetwardPath.Origin.Resume` | core/src/data.rs:373-375 | the origin pumps again |
| `Envelope.EventRoundTrip` | codec-api/src/lib.rs:204-276 | an encoded event followed by anything decodes to itself and its length |
| `Envelope.EventPrefixNeedsMore` | codec-api/src/lib.rs:235-246 | every strict prefix of an encoded event answers need-more |
| `Envelope.TryDecodeStable` | codec-api/src/lib.rs:235-276 | an answer other than need-more is not changed by the bytes that follow |
| `Envelope.DecodedIsWithin` | codec-api/src/lib.rs:235-276 | a decoded frame lies within the buffer, and need-more is answered only below the largest frame |
| `Envelope.DecodeThenEncode` | codec-api/src/lib.rs:257-275 | what was decoded can be encoded, and gives the consumed bytes back exactly unless an open or close carried a payload |
| `Envelope.FrameLayout` | codec-api/src/lib.rs:204-226 | the frame byte by byte: big-endian body length, type, big-endian channel length, channel, payload |
| `Envelope.FramingIsByPrefix` | codec-api/src/lib.rs:235-246 | more bytes are asked for exactly while the announced frame is incomplete and not too large; a larger one is refused as soon as its length is there; a decoded frame is as long as announced |
| `Envelope.BodyErrors` | codec-api/src/lib.rs:247-275 | each error of a body exactly when it is the first thing wrong with its bytes: header, channel length, channel text, type, message text |
| `Envelope.BodyEvents` | codec-api/src/lib.rs:257-275 | which bodies decode and to what, on the bytes: an open or close whatever payload follows, data and error with the payload |
| `UnicodeText.ValidIffScalars` | codec-api/src/lib.rs:257-275 | bytes are accepted as text exactly when they are the UTF-8 encoding of a sequence of Unicode scalar values |
| `Hello.HelloRoundTrip` | codec-api/src/lib.rs:419-518 | an encoded version-1 hello followed by anything decodes to itself and its length; another version is refused by number |
| `Hello.HelloPrefixNeedsMore` | codec-api/src/lib.rs:452-463 | every strict prefix of an encoded hello answers need-more |
| `Hello.HelloStable` | codec-api/src/lib.rs:452-518 | an answer other than need-more is not changed by the bytes that follow |
| `Hello.DecodeThenEncode` | codec-api/src/lib.rs:464-517 | what was decoded is of version 1 and can be encoded, and gives the consumed bytes back exactly when none followed its announcements |
| `Hello.ParsedReencodes` | codec-api/src/lib.rs:494-509 | parsed announcements are as many as counted and re-encode to the bytes they were read from |
| `Hello.HeaderFields` | codec-api/src/lib.rs:431-435 | magic, version, capabilities and count are read back from their offsets, the announcements behind them |
| `Hello.FittingNamesAreShort` | codec-api/src/lib.rs:419-442 | a body that fits has a channel count and lengths that fit their fields, so nothing can fail after the first append |
| `Hello.EventIsNoHello` | codec-api/src/lib.rs:452-480 | no encoded event decodes as a hello |
| `Hello.HelloErrors` | codec-api/src/lib.rs:464-493 | the header errors exactly when due: the magic is judged before the version, the version before the rest of the header |
| `Hello.AnnouncementErrors` | codec-api/src/lib.rs:494-509 | an announcement list is refused for its first announcement that is cut short or not text, whatever well-formed ones precede it |
| `Hello.HelloIsNoEvent` | codec-api/src/lib.rs:235-276 | no encoded hello decodes as an event |
| `EventStream.DecoderAgreesWithOneShot` | codec-api/src/lib.rs:278-346 | for any interleaving of pushes and calls, delivered events followed by the decoding of the live bytes are the one-shot decoding of all bytes pushed; at need-more everything was delivered and less than a largest frame is live; at an error everything before it was |
| `EventStream.ErrorIsSticky` | codec-api/src/lib.rs:312-326 | an error stays the same error however many bytes follow |
| `EventStream.EncodedStreamDecodes` | codec-api/src/lib.rs:204-276 | a stream of encoded events decodes to those events, a partial frame at the end left over |
| `EventStream.ChunkedRoundTrip` | codec-api/src/lib.rs:278-346 | however such a stream is cut and interleaved, a drained decoder has delivered exactly those events |
| `FrameCodec.EncodeInto` | codec-api/src/lib.rs:204-226 | encoding succeeds exactly when the body fits and appends the frame; otherwise it appends nothing |
| `FrameCodec.EncodeHelloInto` | codec-api/src/lib.rs:419-442 | a hello is appended whole exactly when its body fits; otherwise nothing is appended |
| `FrameCodec.ReadAnnouncements` | codec-api/src/lib.rs:494-509 | the moving-offset loop reads the announcement list or gives the reason it is refused |
| `FrameCodec.FrameDecoder.Push` | codec-api/src/lib.rs:303-309 | the live bytes grow by what was pushed, whatever the cursor had retired |
| `FrameCodec.FrameDecoder.Compact` | codec-api/src/lib.rs:335-345 | retired bytes go and live bytes stay |
| `FrameCodec.FrameDecoder.Next` | codec-api/src/lib.rs:312-326 | returns the next event of the one-shot decoding of all bytes pushed; at need-more the decoding is what was delivered and the rest is bounded; at an error it is what was delivered and that error |
| `FrameCodec.FrameDecoder.Buffered` | codec-api/src/lib.rs:330-332 | counts the live bytes |
| `RequestLines.Reader.NextLine` | daemon/src/control.rs:128-160 | a dropped call loses nothing; any other answers the first line of what remains, however it is cut into chunks, refuses it exactly when it is longer than the cap, having consumed more than the cap of it, and never buffers more than the cap |
| `RequestLines.Reader.Next` | daemon/src/control.rs:111-172 | over any calls, dropped or not, the answers so far followed by what the remaining bytes read as are what the whole stream reads as, up to the answer that ends the connection |
| `RequestLines.WrittenLinesReadBack` | daemon/src/control.rs:128-171 | lines written with either line ending read back one for one, and what follows reads as if it stood alone |
| `RequestLines.HowStreamsEnd` | daemon/src/control.rs:131-156 | an empty rest is the end, an unterminated line within the cap is delivered or refused as text, and a line past the cap is refused whether it ends or not |
| `Connection.StepKeepsInv` | daemon/src/control.rs:347-628 | every step keeps: one verb at a time, no reply outstanding while input is awaited, every line accounted for exactly once, every answer under its own line's id, and the order of notifications |
| `Connection.ReachableStates` | daemon/src/control.rs:347-628 | all of that holds in every run |
| `Connection.EveryLineAnsweredOnce` | daemon/src/control.rs:347-628 | in every run a non-blank line is answered exactly once under its own id, null if unparseable, with an answer that fits it, or its answer is pending, never both; while input is awaited only the line of the verb in flight is unanswered; which answer it is: `ConnectionReplies.EveryLineAnsweredRight` |
| `Connection.NothingUnasked` | daemon/src/control.rs:581-627 | no notification precedes the response to a subscribe, no tap delivery the response that opened the tap |
| `Connection.SettledIsAnsweredFirst` | daemon/src/control.rs:357-376 | once a verb has settled, nothing is awaited again before its reply is on the wire |
| `Connection.SettleDuringWrite` | daemon/src/control.rs:239-265 | a verb may settle behind any blocked write, which completes undisturbed; its reply is the next line, or is dropped behind the refusal of an over-long line, which ends the connection |
| `Connection.StepConserves` | daemon/src/control.rs:239-265 | no step loses or doubles the answer owed to a line |
| `ConnectionReplies.ConnectionFollowsBook` | daemon/src/control.rs:347-628 | in every run every reply written, on its way or held back carries the answer that the events alone call for, the verb in flight and the open taps are those the events leave, and everything else written is what the events pushed, in order |
| `ConnectionReplies.EveryLineAnsweredRight` | daemon/src/control.rs:347-628 | in every run a line is pending or answered exactly once, under its own id, with the answer the events call for |
| `ConnectionReplies.LineIsAnsweredByState` | daemon/src/control.rs:437-564 | in every run a parseable line is refused for a verb in flight exactly if one was in flight as it was read; otherwise a verb gets the daemon's answer, a tap open its grant, and a tap close is confirmed exactly when that tap is open here and not orphaned |
| `ConnectionReplies.VerbGetsItsResult` | daemon/src/control.rs:543-564 | in every run a verb read with none in flight that settles with a result is answered with that result |
| `ConnectionReplies.VerbIsInFlight` | daemon/src/control.rs:543-564 | in every run a verb read with none in flight is the verb in flight until it settles |
| `ConnectionReplies.OpenTapsAreOpenedNotClosed` | daemon/src/control.rs:495-541 | in every run the open taps are the taps opened here and not yet closed |
| `ConnectionReplies.SubscribedIffAnswered` | daemon/src/control.rs:372-376 | in every run notifications are forwarded exactly from when a subscribe request was answered |
| `ConnectionReplies.WhatIsAwaited` | daemon/src/control.rs:378-628 | in every run, while anything is awaited, a line, its end and an over-long one are, whatever is in flight; notes are heard exactly once a subscribe request was answered, a tap exactly once opened here, and a settlement exactly while a verb is in flight |
| `ConnectionReplies.OverlongEndsConnection` | daemon/src/control.rs:408-430 | an over-long line is refused in one frame without an id, and that is the last thing on the connection |
| `ConnectionLoop.Server.WriteLine` | daemon/src/control.rs:239-265 | the write loop follows the protocol to the end of the write, parking a verb that settles meanwhile |
| `ConnectionLoop.Server.Accept` | daemon/src/control.rs:464-564 | an accepted line is answered at once or becomes the verb in flight, as the protocol says; what it is answered is `ConnectionReplies.LineIsAnsweredByState` |
| `ConnectionLoop.Server.OnLine` | daemon/src/control.rs:437-577 | a line behind a verb in flight is refused, any other is accepted, as the protocol says |
| `ConnectionLoop.Server.Select` | daemon/src/control.rs:378-628 | whichever arm fires, the loop follows the protocol by at least one event or stops with the connection |
| `ConnectionLoop.Server.Serve` | daemon/src/control.rs:314-630 | for every legal sequence of events the loop ends in the protocol's state, slots, open taps and wire included, and every reply on the wire is the answer the events call for |
| `CharMap.FirstMatch` | core/src/map.rs:252-261 | the earliest rule in the list that matches the byte, if any does |
| `CharMap.ChunksCompose` | core/src/map.rs:325-339 | two calls on two halves give the output and per-rule counts of one call on the whole |
| `CharMap.LengthLaw` | core/src/map.rs:163-222 | output length is input length less total fires plus the sum over rules of fires times expansion |
| `CharMap.OutputIsBounded` | core/src/map.rs:273-284 | output is at most the largest expansion times the input |
| `CharMap.MaxExpansion` | core/src/map.rs:273-278 | the largest expansion among the rules, at least one |
| `CharMap.OutputLength` | core/src/map.rs:163-222 | a rule emits exactly as many bytes as its expansion |
| `CharMap.SwapDisjoint` | core/src/map.rs:250-269 | swapping adjacent rules that never match the same byte changes no output |
| `CharMap.DropCovered` | core/src/map.rs:250-269 | dropping a rule whose bytes earlier rules all match changes no output |
| `CharMap.HexPartition` | core/src/map.rs:141-158 | every byte is matched by exactly one of the six hex rules |
| `CharMap.HexIsFourfold` | core/src/map.rs:163-205 | with the six hex rules in any order the output is exactly four times the input |
| `CharMap.HexIsReversible` | core/src/map.rs:163-205 | with the six hex rules in any order two inputs with equal output are equal |
| `CharMap.ExchangeTwiceIsIdentity` | core/src/map.rs:163-205 | exchanging backspace and delete, or carriage return and line feed, twice gives the input back |
| `CharMap.SingleRules` | core/src/map.rs:141-205 | each line-ending and erase rule alone writes its piece for every occurrence of its byte and leaves the rest |
| `CharMap.FeedsGetReturns` | core/src/map.rs:163-205 | behind `lfcrlf` every line feed stands behind a carriage return |
| `CharMap.ReturnsGetFeeds` | core/src/map.rs:163-205 | behind `crcrlf` every carriage return stands before a line feed |
| `CharMap.HexSpellsByte` | core/src/map.rs:163-205 | the hex rules write brackets around two lowercase digits that spell the byte |
| `MapDirection.Direction.constructor` | core/src/map.rs:250-284 | each of the 256 table entries is the first-match scan's verdict |
| `MapDirection.FindRule` | core/src/map.rs:256-261 | the loop finds the first matching rule |
| `MapDirection.FindMaxExpansion` | core/src/map.rs:273-278 | the loop finds the largest expansion, at least one |
| `MapDirection.Direction.Apply` | core/src/map.rs:325-339 | appends the first-match mapping of the input, reports each fire in order, and stays within the expansion bound |
| `Resolver.LookupIsSound` | core/src/resolver.rs:937-997 | an identity is minted only from non-blank trimmed fields without a colon; which files they are: `DeviceFiles.LookupIff` |
| `DeviceFiles.LookupIff` | core/src/resolver.rs:937-997 | a tty has an identity exactly when its vendor and product files say something and no field has a colon; each field is the trimmed contents of its own file, a dash for a silent serial or interface |
| `DeviceFiles.FieldIsFile` | core/src/resolver.rs:962-985 | reading a field gives nothing exactly for a missing or blank file and otherwise its trimmed contents |
| `DeviceFiles.SpelledInOrder` | core/src/resolver.rs:962-985 | an identity is spelled vendor, product, serial, interface |
| `DeviceFiles.FormIff` | core/src/resolver.rs:234-258 | a device string is a usb, by-path or raw identity, a path or a bare serial by its first characters alone |
| `DeviceFiles.BareSerialIff` | core/src/resolver.rs:616-639 | a bare serial resolves to a device exactly when that device alone is present with an identity and a serial file that says it, and as input it leads there too |
| `DeviceFiles.UsbInput` | core/src/resolver.rs:260-324 | a usb identity is refused exactly when it has not four non-blank fields; otherwise it is kept, bound to the only present carrier, and several carriers are named in a warning |
| `DeviceFiles.ByPathInput` | core/src/resolver.rs:326-341 | a by-path identity is refused exactly when it names no port, and is bound through the port's link to a present node |
| `DeviceFiles.RawInput` | core/src/resolver.rs:343-361 | a raw identity is refused exactly when it is empty, climbs or names a directory, and is bound to its node if present |
| `DeviceFiles.PathInput` | core/src/resolver.rs:364-393 | a path is refused like a raw identity, reported absent when no node is there, and otherwise bound to that node |
| `DeviceFiles.CaptureChain` | core/src/resolver.rs:547-576 | capture prefers a pinning usb identity, then a by-path port that leads to the device, then the path, each with its warning |
| `DevicePaths.MatchesIff` | core/src/resolver.rs:602-607 | the carriers of an identity are exactly the present devices whose files spell it |
| `DevicePaths.ComponentsIff` | core/src/resolver.rs:364-393 | the components of a path are its pieces between slashes, without the empty ones and the dots |
| `DevicePaths.JoinReadsBack` | core/src/resolver.rs:364-393 | a path written out reads back as itself |
| `DevicePaths.LiteralIff` | core/src/resolver.rs:616-639 | a stored path, bare or spelled raw, resolves exactly to the node it spells, if that is present, no directory, and the path does not climb |
| `DevicePaths.RawPathLeadsBack` | core/src/resolver.rs:364-393 | a path captured as a raw identity leads back to its node |
| `DevicePaths.InputIsTrimmed` | core/src/resolver.rs:234-258 | whitespace around an input does not matter, and a blank one is refused |
| `DevicePaths.SerialRefusals` | core/src/resolver.rs:436-457 | a bare serial is refused as ambiguous exactly when two present devices have it, and as absent exactly when none has |
| `Resolver.SpelledSerial` | core/src/resolver.rs:1034-1037 | the serial field read from a spelled identity is the device's serial |
| `Resolver.FindUsbIsExact` | core/src/resolver.rs:862-905 | whatever the by-id tree contains, an identity resolves exactly when one present device carries it, and to that device |
| `Ports.ResolveUsbPath` | core/src/resolver.rs:862-905 | the loops over the device listing and the by-id links answer exactly the only carrier |
| `Ports.ScanById` | core/src/resolver.rs:875-905 | the scan skips odd and stale links and stops at the first present carrier |
| `Ports.UsbIdentityMatches` | core/src/resolver.rs:602-607 | exactly the present devices that carry the identity |
| `Ports.UsbDevices` | core/src/resolver.rs:805-828 | exactly the present ttys with a usb identity |
| `Ports.UsbOnlyWhenItPins` | core/src/resolver.rs:547-576 | a usb identity is captured exactly for a device that has a serial number and alone carries the identity |
| `Ports.CaptureResolvesBack` | core/src/resolver.rs:547-639 | the identity captured for a present device is accepted unchanged as input and leads back to that device, in both directions |
| `Ports.CaptureIsInjective` | core/src/resolver.rs:547-576 | two devices never get the same identity |
| `Ports.UsbResolvesBack` | core/src/resolver.rs:260-324 | a pinning usb identity passes the four-field check and resolves to its device |
| `Ports.ByPathResolvesBack` | core/src/resolver.rs:326-341 | a by-path identity resolves through the link it was read from |
| `Ports.RawResolvesBack` | core/src/resolver.rs:343-361 | a raw identity of a present node passes the literal-path checks and resolves to the node |
| `Ports.EnumeratePorts` | core/src/resolver.rs:721-794 | every present device the four sources name is listed once, in the order of their paths, under the identity capture gives it; each identity is accepted unchanged and leads back to its own candidate's path, and no two candidates share one |
| `Ports.SerialIsExact` | core/src/resolver.rs:616-639 | a bare serial number resolves exactly when one present device carries it, and capture agrees with resolution |
| `Ports.SerialCarriers` | core/src/resolver.rs:467-477 | the carriers of a serial are the present usb devices with that serial; the absent marker has none |

## Left out

- Parsing and printing of TOML and JSON, error messages, and the command-line tools.
- The daemon's start-up, socket and state files, and the `doctor`, `devprep` and packaging tools.
- Config.Validate: does not model the numeric range checks, the loopback check of a leg and the lookup of mapping names: each is one branch.
- Config.CheckNodes: does not model those three kinds of check, which the same loop makes.
- PatternWait.EarliestIsLeftmost: models literal patterns, matched directly; regular expressions are a foreign library's.
- Connection.Enabled: the select is biased in the source; the model lets any ready arm fire, so it covers the source's runs and says nothing about which of two ready arms is preferred.
- What a verb or the tap machinery does: results, tap grants and deliveries are events of the environment; a tap delivers only after it was opened.
- Ports.EnumeratePorts: does not model a candidate's description, warning text and by-id name.
- Resolver.CaptureFromPath: models a path to a node itself; following links and canonical paths are not modelled, nor is a trailing slash or dot behind a node's name.
- DevicePaths.RawPathLeadsBack: is not stated for a path whose last component ends in whitespace, which only a trailing slash or dot lets through the trimming of the input.
- Resolver.ByPathLookup: a port is a link's own name; a port spelled with slashes is not modelled.
- The walk up the sysfs tree: a snapshot gives each tty the attribute files of its USB device.
- Hostward fan-out and the tap continuity counter: per-element accounting.
- The threads and tasks of the serial boundary and the reconnect back-off.
- The refusals of `encode` and `encode_hello` for a name or channel count over 16 bits: a body that fits cannot reach them.
