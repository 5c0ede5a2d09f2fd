# Wirexa: a verified model

Wirexa is a desktop client for MQTT and HTTP. This project models the parts of it in which several activities meet
or data changes hands, and proves what they promise. `dafny verify dfyconfig.toml` checks the whole project.

**MQTT connections.** `MqttSections` holds the critical sections of one connection, `MqttConnection` the step
system in which the connection goroutine, callbacks of the broker client, RPCs, Disconnect, Shutdown and topic scans
interleave, one locked region or one client call at a time. The operation lock is an owner held across steps; what
the broker answers is up to the environment, within the contract of `internal/domain/mqtt/broker_port.go`. Each
establishment opens a clean session that has acknowledged nothing and owes one onConnected. `MqttInvariants` and
`MqttService` prove the invariants of all runs, the latter with any number of connections, the service lock and the
wait group. `MqttObject` has the sections as methods that change the fields in place. `ScanToggle` is the scan button:
the user interface's serialisation of calls against a backend that may process and answer them in any order, and whose
steps are sections of the connection.

**Collections.** `Tree`, `Recovery`, `Moves` and `SidebarLayout` hold the tree operations, the recovery of duplicates,
moves, and the reconciliation of the layout. `UnitOfWork` and `CollectionService` are the objects: files that can fail
to be written, an undo stack, a cache that is published only after all writes, a layout that may be stale or
unreadable. The repository remembers every state its files passed through, so that a crash at any point is a statement
about those states. Collections have unique item IDs and requests have no children where a statement says so.

**HTTP responses and requests.** `ResponseSections`, `ResponseRuns` and `ResponseStore` are the store of truncated
responses as functions, as a system of runs, and as an object. `RequestService` admits sends and remembers early
cancels. `HttpComposition` puts both together. `Spill` reads a response into memory and file. `RequestBody` streams a
body of memory and file segments while other programs may change the files and readers share the handles.

**Two codecs.** `TopicMatching` has the two matchers of topics and the routes, `FormCodec` form encoding and parsing.

History that the program does not store (what a broker granted, who holds a scan client, which call made a reservation,
which file states there were) is kept beside the state; no step of the program tests it. What the environment decides
(replies, failed writes, removals that do not work, the clock, other programs) is arbitrary in every step; counters of
faults record its failures, so that an operation may fail only when something did.

Findings about the code, each with the condition under which the expectation does hold:

- A drained Shutdown may leave a running scan client to be disconnected by a StopTopicScan or a lost callback that is
  still at work, because those disconnect outside the wait group. It leaves none unless one of them already held the
  client when the locked region of Shutdown ended (`MqttService.DrainComplete`, `MqttService.DrainLeavesNone`,
  `MqttService.StopTopicScanOutlivesDrain`).
- `MaxResponseBodyMB` is multiplied in 64 bits and can wrap to a negative limit; a body is then shown empty and not
  marked as truncated. The mark is right if and only if the limit is not negative, which the setting alone decides, or
  nothing arrived (`Spill.DisplayLimit`, `Spill.SettingOverflows`, `Spill.Receive`).
- The place asked for in the sidebar is a place in the stored layout. It is the place shown if and only if the stored
  entries before it all exist, do not repeat, and are not the item (`SidebarLayout.PlaceShown`,
  `SidebarLayout.PlaceMissed`, `CollectionService.Service.MoveItemToSidebar`).
- The recovery of duplicates removes by ID, the first node of that ID. These are the nodes it flagged if and only if
  every flagged ID comes from an earlier collection (`Recovery.TakesOutFlagged`, `Recovery.NestedCopyLost`).
- `Finish` releases by ID. In the store alone it releases the reservation of its own Begin if and only if the ID was
  not begun again in between, which the request service guarantees (`HttpComposition.FinishOwnExactly`,
  `HttpComposition.FinishAlone`, `HttpComposition.FinishReleasesOwn`).
- The message list accepts a message of a route if and only if the router matches it or the topic is literally a shared
  filter (`TopicMatching.UIVersusRouter`).

## Model

| member | source | states |
|---|---|---|
| `MqttObject.Connection.SetSub` | internal/application/mqtt/subscription.go:15-20 | the table with the row added last, or with its QoS changed in place |
| `MqttObject.Connection.DeleteSub` | internal/application/mqtt/subscription.go:23-29 | the table without the topic, the other rows in order; map and order list stay in step |
| `MqttObject.Connection.OrderedSubs` | internal/application/mqtt/subscription.go:32-38 | the rows in subscription order |
| `MqttObject.Connection.UpdatePendingSubs` | internal/application/mqtt/subscription.go:44-52 | changes the table only while connecting, and says whether it did |
| `MqttObject.Connection.DetachScan` | internal/application/mqtt/topic_scan.go:51-62 | takes the scan off; hands out its client only if it was running |
| `MqttObject.Connection.RunSection` | internal/application/mqtt/service.go:150-190 | the locked region after Connect returned: discard, fail with one event and the scan detached, or become connected; the client handed out is that of the detached scan, if it was running |
| `MqttObject.Connection.ConnectedSection` | internal/application/mqtt/service.go:196-205 | connected event and the rows to renew, or nothing when terminal |
| `MqttObject.Connection.LostSection` | internal/application/mqtt/service.go:214-222 | one lost event unless terminal |
| `MqttObject.Connection.MessageSection` | internal/application/mqtt/subscription.go:93-117 | one message event unless terminal |
| `MqttObject.Connection.DropSection` | internal/application/mqtt/subscription.go:145-157 | the row leaves; the event is emitted unless terminal |
| `MqttObject.Connection.CloseSection` | internal/application/mqtt/service.go:247-255 | closed with its event, unless Shutdown closed it first |
| `MqttObject.Connection.DetachSection` | internal/application/mqtt/service.go:280-290 | disconnecting and without a scan; hands out the client of that very scan, if it was running |
| `MqttObject.Connection.ReserveScan` | internal/application/mqtt/topic_scan.go:160-173 | refused in a terminal state; joins the scan there is; otherwise a new scan is attached; what is returned is the attached scan |
| `MqttObject.Connection.StartSection` | internal/application/mqtt/topic_scan.go:106-125 | a scan starts, emitting everything received so far in order, exactly when it is still attached, its I/O worked and it was not lost |
| `MqttObject.Connection.ScanMessageSection` | internal/application/mqtt/topic_scan.go:195-210 | kept until the scan runs, emitted then, dropped when detached |
| `MqttObject.Connection.ScanLostSection` | internal/application/mqtt/topic_scan.go:215-233 | a running scan ends with an event and must be disconnected, a starting one only remembers |
| `MqttSections.SetSubRows` | internal/application/mqtt/subscription.go:15-20 | setSub sets the row of one topic, keeps the other rows, and never repeats a topic |
| `MqttSections.SetSubOrder` | internal/application/mqtt/subscription.go:15-20 | every row stays at its place, changed in its QoS if it is the topic's; a new topic comes last |
| `MqttSections.DeleteSubRows` | internal/application/mqtt/subscription.go:23-29 | deleteSub removes exactly one topic |
| `MqttInvariants.EventStep` | internal/application/mqtt/service.go:145-292 | every step keeps the event grammar: at most one final event and nothing after it; terminal states absorb and carry no scan |
| `MqttInvariants.ScanStepKeeps` | internal/application/mqtt/topic_scan.go:51-233 | every step keeps who owns each scan client and what was delivered of it |
| `MqttInvariants.SubsStep` | internal/application/mqtt/subscription.go:71-191 | every step keeps the subscription table covered: each row is held by the broker, in the hands of the operation in progress, or owed by an onConnected of the open session |
| `MqttInvariants.ConnStep` | internal/application/mqtt/service.go:145-292 | all connection invariants are kept by every step of every party |
| `MqttService.NoSubscriptionMissing` | internal/application/mqtt/subscription.go:118-166 | in every reachable state: once onConnected is through and the session is up, no listed subscription is missing at the broker |
| `MqttInvariants.ScanDisconnectedOnce` | internal/application/mqtt/topic_scan.go:65-69 | a scan client is disconnected at most once, and exactly once when the scan is detached and everyone is through |
| `MqttInvariants.ScanTopicsExact` | internal/application/mqtt/topic_scan.go:195-210 | the emitted topics are those received while attached, in order, without loss or repetition; none if the scan never runs |
| `MqttService.SStepKeeps` | internal/application/mqtt/service.go:104-440 | the invariant of the service - tokens of the wait group, phases of Shutdown, all connections - is kept by every step |
| `MqttService.RunInvariant` | internal/application/mqtt/service.go:104-440 | so it holds in every state of every run |
| `MqttService.GroupNeverGrows` | internal/application/mqtt/service.go:379-407 | once closed is set, nothing is added to the wait group |
| `MqttService.EveryState` | internal/application/mqtt/service.go:145-292 | grammar, covered subscriptions, single disconnects and exact scan topics in every reachable state, across reconnects, Disconnect and Shutdown |
| `MqttService.SilenceAfterShutdown` | internal/application/mqtt/service.go:379-407 | no event of any connection after the locked region of Shutdown |
| `MqttService.DrainComplete` | internal/application/mqtt/service.go:409-446 | after the drain every client that ever connected was disconnected afterwards, starting scans too; for scans taken away while running, exactly when no StopTopicScan or lost callback still holds them |
| `MqttService.DrainLeavesNone` | internal/application/mqtt/service.go:379-446 | a scan client is disconnected when the drain completes, unless a StopTopicScan or lost callback already held it at the end of the locked region of Shutdown and still does; none there then, none left after the drain |
| `MqttService.StopTopicScanOutlivesDrain` | internal/application/mqtt/topic_scan.go:177-191 | a reachable drained state in which a scan client is still to be disconnected |
| `ScanToggle.StepKeeps` | frontend/src/application/mqtt/subscriptions.ts:185-249 | clicks, sending, processing and answers in any order keep the serialisation of the calls |
| `ScanToggle.Converges` | frontend/src/application/mqtt/subscriptions.ts:185-249 | when all calls have settled, the display says scanning exactly if the backend has a started scan |
| `ScanToggle.OneStartInFlight` | frontend/src/application/mqtt/subscriptions.ts:202-216 | never two start calls at once |
| `ScanToggle.ServeKeeps` | internal/application/mqtt/topic_scan.go:79-192 | every step of the toggle's backend is the locked section of the connection: scan and flag agree before and after |
| `ScanToggle.ReserveServed` | internal/application/mqtt/topic_scan.go:153-173 | a start call reserves exactly when the connection has no scan, and otherwise joins the scan there is |
| `ScanToggle.StartServed` | internal/application/mqtt/topic_scan.go:106-136 | the result recorded for a start is the one its last section decides |
| `ScanToggle.ShowsConnection` | frontend/src/application/mqtt/subscriptions.ts:185-249 | with the connection's own sections serving the calls, and messages, losses and subscriptions in between, the settled display says scanning exactly if the connection has a running scan |
| `Tree.HasIffOccurs` | internal/domain/http/types.go:352-365 | the search finds an ID exactly if it occurs anywhere in the tree |
| `Tree.RemoveCount` | internal/domain/http/types.go:383-406 | removal takes out the found subtree and nothing else, counted per node |
| `Tree.RemoveAbsent` | internal/domain/http/types.go:383-406 | removing an unknown ID changes nothing |
| `Tree.InsertMeaning` | internal/domain/http/types.go:426-437 | refused exactly when the parent is neither the top level nor a folder of the tree; otherwise exactly the subtree is added, at its place below the parent, and removing it gives back the tree |
| `Tree.InsertAtUndone` | internal/domain/slices.go:14-19 | removing what was inserted gives back the list |
| `Tree.InsertBelowUndone` | internal/domain/http/types.go:426-437 | the same below any parent |
| `Tree.InsertBelowPlace` | internal/domain/http/types.go:426-437 | the children of the parent become the list with the item inserted at the position |
| `Moves.MoveSucceeds` | internal/application/http/collection_service.go:406-467 | a move succeeds exactly when collections and item exist and the parent is a folder outside the item's subtree |
| `Moves.MoveMeaning` | internal/application/http/collection_service.go:406-484 | nodes are conserved, the subtree arrives intact and at its place, the source loses exactly it, IDs stay unique |
| `Moves.MoveWithinMeaning` | internal/application/http/collection_service.go:444-465 | within one list: the part before the position without the item, the item, the part after it without the item; out of range appends |
| `Moves.MoveAmongSiblings` | internal/application/http/collection_service.go:444-465 | a move within one parent is that list function |
| `Moves.CrashAtomic` | internal/application/http/collection_service.go:469-484 | recovering the forest left by a crash before, between or after the two writes gives the forest before or after the move, and which |
| `Recovery.DuplicateScanOrder` | internal/application/http/reconcile.go:34-46 | the root first, then the IDs in byte order, each once |
| `Recovery.ScanOrderUnique` | internal/application/http/reconcile.go:34-46 | there is only one such order |
| `Recovery.CollectFresh` | internal/application/http/reconcile.go:51-62 | in a tree that shares no ID with what was seen, nothing is flagged and all IDs are remembered |
| `Recovery.CollectOne` | internal/application/http/reconcile.go:51-62 | a tree holding a second copy of one subtree has exactly its root flagged |
| `Recovery.RecoverUnique` | internal/application/http/reconcile.go:16-31 | a forest with unique IDs is left alone |
| `Recovery.RecoverPair` | internal/application/http/reconcile.go:16-31 | of two copies the one in the collection scanned later goes, and nothing else |
| `Recovery.TakesOutFlagged` | internal/application/http/reconcile.go:16-62 | removing the flagged IDs one by one takes out exactly the flagged nodes if and only if each flagged ID comes from an earlier collection |
| `Recovery.UniqueRemoves` | internal/application/http/reconcile.go:16-62 | which unique IDs within the collection guarantee |
| `Recovery.NestedCopyLost` | internal/application/http/reconcile.go:16-62 | otherwise a folder holding a copy of its own ID is lost with everything in it, though only the copy is flagged |
| `Recovery.FlaggedChanges` | internal/application/http/reconcile.go:16-31 | a collection in which something is flagged does change |
| `UnitOfWork.Repository.Save` | internal/application/http/unit_of_work.go:35-49 | a failed write leaves the files as they were |
| `UnitOfWork.Unit.SaveCollection` | internal/application/http/unit_of_work.go:35-49 | writes and pushes the inverse; after an error it does nothing |
| `UnitOfWork.Unit.DeleteCollection` | internal/application/http/unit_of_work.go:52-61 | deletes and pushes the inverse; after an error it does nothing |
| `UnitOfWork.WriteUndone` | internal/application/http/unit_of_work.go:35-49 | one more write does not change what the undo stack leads back to |
| `UnitOfWork.DeleteUndone` | internal/application/http/unit_of_work.go:52-61 | nor does a deletion |
| `UnitOfWork.Unit.Rollback` | internal/application/http/unit_of_work.go:69-76 | when no undo fails, the files are exactly those from before the unit of work, and every state on the way is a partial undo |
| `SidebarLayout.KeptMeaning` | internal/application/http/reconcile.go:89-97 | stored entries that exist, once each, in stored order |
| `SidebarLayout.CompletedMeaning` | internal/application/http/reconcile.go:101-114 | missing entries follow in their order |
| `SidebarLayout.ReconciledMeaning` | internal/application/http/reconcile.go:74-116 | no repeats, exactly the entries that exist, known ones in stored order, missing ones after them |
| `SidebarLayout.ReconciledTwice` | internal/application/http/reconcile.go:74-116 | a second pass is the identity |
| `SidebarLayout.ReconciledFixed` | internal/application/http/reconcile.go:74-116 | a layout is kept exactly if it is already complete and free of repeats |
| `SidebarLayout.PlaceShown` | internal/application/http/reconcile.go:74-116 | an entry inserted into the stored layout at a place is shown there exactly when the stored entries before it all exist, do not repeat, and are not the entry itself |
| `SidebarLayout.PlaceMissed` | internal/application/http/reconcile.go:89-97 | a stale entry before the place moves it |
| `SidebarLayout.SortByName` | internal/application/http/reconcile.go:99-100 | a permutation sorted by name |
| `SidebarLayout.ReconcileSidebarLayout` | internal/application/http/reconcile.go:74-116 | the two loops compute the reconciled layout, and changed says exactly whether it differs |
| `SidebarLayout.LayoutRemove` | internal/application/http/sidebar_layout_service.go:43-55 | compacts the slice in place to the list without the entry |
| `SidebarLayout.LayoutMove` | internal/application/http/sidebar_layout_service.go:60-80 | the same list function as a move among siblings; refused for an unknown entry |
| `CollectionService.LayoutService.Load` | internal/application/http/sidebar_layout_service.go:93-102 | what is stored, nothing for a corrupt file, an error when reading fails |
| `CollectionService.LayoutService.Update` | internal/application/http/sidebar_layout_service.go:107-122 | load, change, save: succeeds exactly if the change is possible and nothing fails, and otherwise changes nothing |
| `CollectionService.DropDuplicateItems` | internal/application/http/reconcile.go:16-31 | the collections together with the returned ones are the recovered forest, in the one scan order; when requests have no children, none is returned that did not change |
| `CollectionService.Service.Start` | internal/application/http/collection_service.go:58-130 | after startup the cache is the recovered forest of what could be read; a root file that exists is never replaced, the service then runs without a root; cache and files agree unless a write failed |
| `CollectionService.Service.EnsureRootCollection` | internal/application/http/collection_service.go:93-119 | the root is created exactly when it was not read and its file is known not to exist |
| `CollectionService.Service.RecoverDuplicateItems` | internal/application/http/collection_service.go:121-130 | the recovery is in effect in the cache whether or not it can be written; unique IDs leave everything alone |
| `CollectionService.Service.WriteMove` | internal/application/http/collection_service.go:472-476 | target first, then source; a failure leaves the files untouched, or halfway with the undo that takes them back |
| `CollectionService.Service.CommitMove` | internal/application/http/collection_service.go:472-484 | the cache follows exactly when both were written; otherwise the files are taken back, and agree again unless an undo failed too; every file state is before, halfway or after |
| `CollectionService.Service.MoveItem` | internal/application/http/collection_service.go:406-484 | outcome, cache and IDs as the specification of the move says; an error leaves the cache; a crash in any file state, also during rollback, recovers to before or after |
| `CollectionService.Service.MoveItemToSidebar` | internal/application/http/collection_service.go:557-603 | the same for a move to the end of the root, with the layout entry inserted at the asked place of the stored layout if that can be written; the sidebar then shows the item at that place exactly when the stored entries before it are listable, do not repeat, and are not the item |
| `CollectionService.PlaceAfterMove` | internal/application/http/collection_service.go:491-603 | that condition, on the collections and the stored layout before the move |
| `CollectionService.Restart` | internal/application/http/collection_service.go:58-130 | a start from files that recover to one of two forests has one of them in its cache, with a root added if there was none |
| `CollectionService.RestartAfterMove` | internal/application/http/collection_service.go:58-484 | a move, a crash in any file state it passes through, also during its rollback, and a start from there: the forest from before or after the move, IDs unique |
| `CollectionService.MoveSafe` | internal/application/http/collection_service.go:469-484 | every file state of a move is recoverable and the result has unique IDs |
| `CollectionService.Service.Shift` | internal/application/http/collection_service.go:444-461 | the position correction for a move towards the end |
| `CollectionService.Service.AddItem` | internal/application/http/collection_service.go:312-338 | exactly one item is added, or nothing changes and the reason is a missing collection or parent or a failed write; IDs stay unique; the layout follows for items of the root |
| `CollectionService.Service.DeleteItem` | internal/application/http/collection_service.go:606-632 | exactly one subtree leaves, or nothing changes for the stated reason; the layout follows for items of the root |
| `CollectionService.Service.DeleteCollection` | internal/application/http/collection_service.go:223-244 | the collection leaves cache and files, or neither; the root is refused |
| `CollectionService.Service.GetSidebarLayout` | internal/application/http/collection_service.go:491-506 | the reconciled stored order, or the default order when it cannot be read: complete and free of repeats whatever the file holds |
| `CollectionService.Service.ReconcileLayoutAtStartup` | internal/application/http/collection_service.go:140-154 | the stored layout becomes the reconciled one, or stays when the file cannot be read or written |
| `CollectionService.Service.MoveSidebarEntry` | internal/application/http/collection_service.go:530-536 | the reconciled layout with the entry moved is stored, or nothing changes |
| `CollectionService.Service.MoveEntryMeaning` | internal/application/http/sidebar_layout_service.go:60-80 | refused exactly for an entry that does not exist; otherwise the same entries, without repeats |
| `ResponseStore.ResponseStore.EvictExpired` | internal/infrastructure/http/response_store.go:310-317 | only expired ready entries leave, each with its file |
| `ResponseStore.ResponseStore.Begin` | internal/infrastructure/http/response_store.go:115-127 | reserves an ID that is not tracked, after evicting |
| `ResponseStore.ResponseStore.Finish` | internal/infrastructure/http/response_store.go:130-136 | releases a reservation that neither spills nor has a file |
| `ResponseStore.ResponseStore.StartSpill` | internal/infrastructure/http/response_store.go:164-204 | the three limits are checked before space is reserved |
| `ResponseStore.ResponseStore.AbortSpill` | internal/infrastructure/http/response_store.go:207-223 | gives the reserved space back, unless a cleanup has done so |
| `ResponseStore.ResponseStore.CommitSpill` | internal/infrastructure/http/response_store.go:225-243 | publishes the file with its real size, or removes it when the store was closed meanwhile |
| `ResponseStore.ResponseStore.AcquireSave` | internal/infrastructure/http/response_store.go:248-264 | only a ready entry becomes saving |
| `ResponseStore.ResponseStore.Discard` | internal/infrastructure/http/response_store.go:267-282 | only a ready entry whose file goes is dropped |
| `ResponseStore.ResponseStore.Restore` | internal/infrastructure/http/response_store.go:371-389 | back to ready, or out of the books when closed, when the file is gone, or when it cannot be looked up |
| `ResponseStore.ResponseStore.Cleanup` | internal/infrastructure/http/response_store.go:287-305 | everything but saves leaves; the directory goes only when nothing is being saved |
| `ResponseRuns.StepInv` | internal/infrastructure/http/response_store.go:115-389 | every section and every step of a lease keeps the books, whatever else is in progress |
| `ResponseRuns.Accounting` | internal/infrastructure/http/response_store.go:22-27 | in every reachable state files, total and spilling are exact, at most 8, 2 GiB and 2, and a closed store holds only saves |
| `ResponseRuns.NoFileForgotten` | internal/infrastructure/http/response_store.go:207-243 | every temporary file belongs to exactly one entry or spill, unless removing it failed or a look-up of it failed when its lease ended |
| `ResponseRuns.LeaseStable` | internal/infrastructure/http/response_store.go:248-389 | no step but the lease's own touches its entry, and none but an outsider's its file |
| `ResponseRuns.LeaseWindow` | internal/infrastructure/http/response_store.go:248-389 | over any stretch of a run without a step of the lease its entry stays, and its file too unless an outsider removes it |
| `ResponseRuns.SaveDropsOwn` | internal/infrastructure/http/response_store.go:350-364 | a finished save drops the very entry it was given, although it does not check |
| `ResponseRuns.ClosedForGood` | internal/infrastructure/http/response_store.go:287-305 | after a cleanup nothing new is tracked, spilled or leased |
| `RequestService.Service.Admit` | internal/application/http/request_service.go:92-112 | refused when closed, running, or cancelled less than five seconds ago; otherwise registered |
| `RequestService.Service.TakePending` | internal/application/http/request_service.go:156-163 | a recorded cancel is used up; it counts only within its time |
| `RequestService.Service.CancelRequest` | internal/application/http/request_service.go:134-152 | signals the running call, or records the cancel after a sweep, or nothing when closed |
| `RequestService.Service.SweepPending` | internal/application/http/request_service.go:167-184 | nothing expired stays, fewer than 64 stay, no more are given up than needed, the oldest first |
| `RequestService.Service.Oldest` | internal/application/http/request_service.go:175-181 | the scan finds an oldest entry |
| `RequestService.RunValid` | internal/application/http/request_service.go:82-193 | in every reachable state cancels and pending are disjoint, pending is at most 64, and empty after Shutdown |
| `RequestService.CancelPreventsCall` | internal/application/http/request_service.go:103-109 | a cancel recorded within its time before the send, and not evicted, prevents the transport call |
| `RequestService.NothingAfterShutdown` | internal/application/http/request_service.go:188-193 | no call is admitted after Shutdown |
| `HttpComposition.StepInv` | internal/application/http/request_service.go:91-119 | both components together keep each reservation owned by the call that works under its ID |
| `HttpComposition.OneCallPerID` | internal/application/http/request_service.go:98-110 | never two transport calls under one execution ID |
| `HttpComposition.FinishReleasesOwn` | internal/infrastructure/http/net_client.go:90-94 | Finish releases only the reservation of its own call |
| `HttpComposition.QuietAfterDrain` | internal/infrastructure/http/net_client.go:70-79 | when all calls have returned, nothing is reserved or spilling |
| `HttpComposition.CallsOnlyLeave` | internal/application/http/request_service.go:188-193 | after Shutdown calls only leave |
| `HttpComposition.FinishOwnExactly` | internal/infrastructure/http/response_store.go:115-136 | in any run of the store alone, what a Finish removes is the reservation of its own Begin if and only if no other Begin of the ID succeeded in between |
| `HttpComposition.FinishAlone` | internal/infrastructure/http/response_store.go:130-136 | and otherwise it can be another's, in any open store with room |
| `Spill.DisplayLimit` | internal/infrastructure/http/net_client.go:451-457 | never above the file limit; negative, zero or positive as the setting says exactly, and the setting itself when nothing overflows |
| `Spill.SettingOverflows` | internal/infrastructure/http/net_client.go:451-457 | a setting for which it is negative |
| `Spill.CopyUpTo` | internal/infrastructure/http/net_client.go:335-344 | what reached the file is counted exactly |
| `Spill.WriteSpill` | internal/infrastructure/http/net_client.go:323-360 | the file is the first limit bytes, never more, also when the look-ahead byte exceeded the limit; capped exactly if there was more |
| `Spill.SpillBody` | internal/infrastructure/http/response_store.go:142-162 | the file is published only if the store agreed before and after; otherwise nothing is, for a reason: refusal, or a fault of stream or file |
| `Spill.ReceiveBody` | internal/infrastructure/http/net_client.go:230-272 | display, truncation, size and file of a response for every stream and every pair of limits; refused only if the store declined the spill before or after writing |
| `Spill.Receive` | internal/infrastructure/http/net_client.go:218-272 | with the client's limits the truncation mark is right if and only if the limit is not negative or nothing arrived; size, file and capping for every limit that is not negative |
| `RequestBody.SharedFile.Acquire` | internal/infrastructure/http/request_body.go:123-131 | a closed handle cannot be taken |
| `RequestBody.SharedFile.Release` | internal/infrastructure/http/request_body.go:134-144 | the last holder closes the handle, once |
| `RequestBody.BodySegments.Write` | internal/infrastructure/http/request_body.go:37-45 | the announced body grows by exactly these bytes |
| `RequestBody.BodySegments.AppendFile` | internal/infrastructure/http/request_body.go:48-51 | the announced body grows by the contents at opening; the body alone holds the new file, and the other files keep their holders |
| `RequestBody.BodySegments.Release` | internal/infrastructure/http/request_body.go:55-65 | the body lets go of each handle once |
| `RequestBody.BodySegments.NewReader` | internal/infrastructure/http/request_body.go:69-84 | a reader that holds every file, or none held and a refusal, exactly when some handle is closed |
| `RequestBody.BodySegments.GetBody` | internal/infrastructure/http/request_body.go:88-110 | a fresh reader holding every file, only if every file was unchanged at the call; or the first error recorded and nothing held |
| `RequestBody.CheckFiles` | internal/infrastructure/http/request_body.go:88-99 | succeeds only if no file had changed at the call, and fails only for a change or a fault |
| `RequestBody.SegmentReader.Read` | internal/infrastructure/http/request_body.go:158-190 | bytes, end or a sticky error, the error only after a change or a fault; what was delivered stays right whatever happens to the files; only open handles are read |
| `RequestBody.SegmentReader.ReadFile` | internal/infrastructure/http/request_body.go:196-218 | the last bytes of a file come only with proof that it never changed |
| `RequestBody.SegmentReader.Close` | internal/infrastructure/http/request_body.go:226-233 | lets go once, however often it is called |
| `RequestBody.ClosedOnce` | internal/infrastructure/http/request_body.go:55-144 | of a body with any number of readers: every open reader may read, and each handle is closed exactly once, when the body has released and every reader is closed |
| `RequestBody.AddFile` | internal/infrastructure/http/request_body.go:48-51 | it holds for a new body and stays true as files are appended |
| `RequestBody.AddData` | internal/infrastructure/http/request_body.go:37-45 | and as data is written |
| `RequestBody.OpenReader` | internal/infrastructure/http/request_body.go:69-84 | making a reader keeps that, and for a body with files is refused exactly when nobody holds them any more |
| `RequestBody.ReopenReader` | internal/infrastructure/http/request_body.go:88-110 | so does the reader of a redirect or retry, refused only for a change, a fault, or files that nobody holds |
| `RequestBody.CloseReader` | internal/infrastructure/http/request_body.go:226-233 | closing a reader keeps it |
| `RequestBody.ReleaseBody` | internal/infrastructure/http/request_body.go:55-65 | and so does releasing the body |
| `RequestBody.CompleteIsRight` | internal/infrastructure/http/request_body.go:192-218 | never more than the announced length, and that many bytes are the data and the files as opened |
| `RequestBody.Drain` | internal/infrastructure/http/request_body.go:158-190 | reading to the end terminates; the end is reached only with the right body, and always when no file changed and nothing failed |
| `TopicMatching.StripSame` | frontend/src/domain/mqtt/topic.ts:10-20 | both ways of stripping the shared prefix agree on every filter |
| `TopicMatching.FilterMatches` | internal/infrastructure/mqtt/paho_client.go:74-94 | the loop of the router computes the matching relation |
| `TopicMatching.TopicMatchesParts` | frontend/src/domain/mqtt/topic.ts:31-42 | the loop of the user interface computes the same relation |
| `TopicMatching.MatchesMeets` | internal/infrastructure/mqtt/paho_client.go:82-94 | with # only at the end the relation is section 4.7.1 of MQTT 3.1.1 |
| `TopicMatching.MatchesCut` | internal/infrastructure/mqtt/paho_client.go:84-88 | any other filter behaves as if it ended at its first # |
| `TopicMatching.ValidFilterMeets` | internal/domain/mqtt/topic.go:34-48 | every filter that passes validation, shared or not, matches as section 4.7.1 says |
| `TopicMatching.ValidateTopicFilter` | internal/domain/mqtt/topic.go:34-63 | accepts exactly the valid filters |
| `TopicMatching.JoinSplit` | frontend/src/domain/mqtt/topic.ts:27-29 | splitting into levels loses nothing |
| `TopicMatching.Router.SetRoute` | internal/infrastructure/mqtt/paho_client.go:97-108 | replaces in place or appends; one route per filter |
| `TopicMatching.Router.RemoveRoute` | internal/infrastructure/mqtt/paho_client.go:111-117 | removes exactly the filter |
| `TopicMatching.Router.Dispatch` | internal/infrastructure/mqtt/paho_client.go:121-134 | the first matching route's handler, or none exactly if none matches |
| `TopicMatching.UIVersusRouter` | frontend/src/application/mqtt/subscription.ts:14-43 | the list accepts a message exactly if the router would match, or the topic is literally a shared filter |
| `TopicMatching.UIAcceptsMore` | frontend/src/application/mqtt/subscription.ts:33-43 | such a topic exists |
| `FormCodec.EncodeFormPairs` | internal/domain/http/types.go:204-220 | the builder loop computes the encoding of the rows |
| `FormCodec.ParseFormPairs` | internal/domain/http/types.go:179-197 | the segment loop computes the parsed rows |
| `FormCodec.UnescapeEscape` | internal/domain/http/types.go:232-238 | escaping is undone for every byte string |
| `FormCodec.EscapeClean` | internal/domain/http/types.go:215-217 | escaped components contain no separator |
| `FormCodec.RoundTrip` | internal/domain/http/types.go:179-220 | parsing an encoding gives the enabled rows with a key, in order, duplicates kept |
| `FormCodec.EncodedInjective` | internal/domain/http/types.go:204-220 | different sent rows never encode alike |

## Left out

- Publish, ID and QoS validation, client IDs, logging: nothing in the modelled state depends on them.
- Joined starts of a topic scan: `MqttObject.Connection.ReserveScan` joins the scan there is; waiting for its start and
  returning the result is modelled only in the small backend of `ScanToggle`.
- A granted QoS lower than the requested one: a grant is taken as requested.
- Timeouts of Shutdown and the quiesce times of Disconnect: a Shutdown that gives up waiting is a run that is not
  drained.
- ScanToggle.Converges: for runs without a lost scan connection, a disconnect or a failing stop call.
- Tree nodes are values: sharing of pointers between a cached collection and its clone, and of slice memory, is not
  modelled; the layout removal, which works in place, is proved on an array.
- Which files can be read is a state of the session: a file that is unreadable at startup is not read later, and one
  that was read stays readable.
- CreateCollection, RenameCollection, RenameItem, UpdateRequest: each writes one collection through the same unit of
  work; creating a collection also appends its entry to the layout. Stored requests of older forms, which loading
  normalises, are part of a node's payload.
- Duplicates within one collection: for such collections only `Recovery.TakesOutFlagged` and `Recovery.NestedCopyLost`
  say what the recovery does; moves and crash recovery assume unique IDs within each collection.
- SidebarLayout.SortByName: collections of equal name come in any order, as the library's sort is not stable and the
  cache has no order.
- CollectionService.LayoutService.Load: counts a corrupt file as empty whether or not it could be put aside; quarantine
  names are not modelled.
- ResponseStore: copying the file, the session directory's marker, its secret and the sweep at the next start;
  temporary names are assumed never to repeat within a session; Spill is its three phases there and one call in
  `Spill.SpillBody`, where the answers of the store are parameters.
- RequestService: method validation before the admission, and delivery of the cancellation to the running call.
- RequestBody: calls on the shared counters are single critical sections; a read that overlaps the close of the same
  reader is excluded; getBody checks files without holding them, so only reads by open readers are claimed safe; a file
  change that shows neither in size nor in modification time is not a change.
- RequestBody.BodySegments.Write: a reader has the segments of the moment it was made; that later writes could reach it
  through shared memory is not modelled, as bodies are complete before they are read.
- Spill: a broken stream and a timeout are both failed reads; headers and base64 of the display are not modelled.
- TopicMatching: strings are their UTF-8 bytes; the user interface works on UTF-16, in which equality and '/' agree
  for well-formed text. Section 4.7.2 ($ topics) is left to the broker, as in the code.
- FormCodec: kinds of rows and file rows; the multipart encoding.
- UDP, OpenAPI, presets, window state, adapters, dialogs and all user interface components.
- paho, net/http, JSON and real file operations are environment: arbitrary behaviour within their stated contracts.
