# Golden engine: verified models

Dafny models of the parts of the node-graph engine that keep a fast, compacted or sparse form in agreement with a
simple one, and proofs of that agreement. `dafny verify dfyconfig.toml` checks everything.

## What is modelled

- **UI read model.** A node store is patched from graph operations and parameter events; a bounded ring of events
  conflates parameter feedback in place and drops its oldest events; clients replay from a cursor. `Conflation`,
  `FeedbackCoalescer` and `ReplayLog` show that conflation keeps the meaning of a stream and that replay is complete,
  `ReplayDefaults` when it is exact, `ScopedEvents` and `ScopedClients` what clients of one subtree are told and what it
  gives them, and `ProjectReplacement` what it gives to clients of a project that another one has replaced;
  `OrderedTrees`, `TreeEditing` and `TreeRuns` that the store is the projection of the live tree; `SubtreeScopes` and
  `LinkedWalk` that listing a subtree and climbing to its root agree, on snapshots and on the engine's links;
  `SnapshotShape` and `UiReadModel` that the assembled snapshot lags in parameter payloads only. `UiTypes` and
  `StoreSemantics` hold the data and the meaning of events.
- **Sparse project files.** Trees are saved as deltas against declared defaults: `SparseDeltas`, `SparseCodec`,
  `SparseArrangement` (what is kept of a tree, and where), `SparseSaving` (what is left out, and what is saved of the
  rest), `SparseExpansion` (the loops with their flag arrays), `SparseRoundTrip` (what comes back of one node),
  `SparseProjects` (exactly which trees come back), `SparseReferences`, and `ParameterDeltas` for the delta that
  parameters have of their own.
- **Source scanner.** `SourceScanner` is the six-mode lexer, `ScannerGrammar` the same lexer against a grammar.
- **User contexts.** `UserContexts` is the registry with its cache, `ContextOffers` what the UI offers against what
  symbols resolve to, `LaneIndex` the lane arithmetic, `MultiplexLinks` the link symbols, `Text` the trimming and the
  order of texts that they share.
- **Listener index.** `ListenerIndex` is the two-way index and the lookup of recipients through it.
- **Parameters.** `ParamEngine` is the event-sourced write path with its caches, clock and log; `LateClients` joins it
  with captures, ring and replay.
- **Labels.** `ChildLabels` allocates labels for new children.

Classes stand for the objects that are updated in place; each method's contract ties the new state to the old one
through functions whose properties are proved beside it.

## What does not hold

- A remembered `default_value` is not part of what replay preserves: a merged event can start from a value the client
  has left behind (`ReplayDefaults.ReplayCanChangeADefault`). It is preserved if the first change of every parameter
  that the client shows without a default starts from the value it shows; in a chain of values only if every parameter
  that starts elsewhere is inserted, removed or patched later in the replay, and so, without graph transactions, only
  then (`ReplayDefaults.ReplayIsExact`). A client can check that before it applies the replay. The engine's own log
  merges across captures as well, so the read model's store can remember a wrong default until the next full snapshot
  (`LateClients.CaptureCanChangeADefault`, with the same condition in `LateClients.CaptureIsExact`). A comment
  (`crates/core/src/ui_read_model.rs:347-349`) calls the engine's log lossless; the code conflates it
  (`crates/core/src/engine/ui.rs:123-148`), and the model follows the code.
- A replay after a cursor older than the oldest retained event is refused although nothing need have been lost
  (`ReplayDefaults.ResyncCanBeNeedless`): exactly if the cursor has seen the last evicted event, and always while the
  ring is below its capacity (`ReplayLog.RetentionCheck`).
- A client of one subtree misses a node that moves into its scope (`ScopedClients.MoveIntoScopeIsMissed`). It ends with
  the server's scope exactly if every node of the scope was held before or came as a snapshot
  (`ScopedClients.ScopeIsHeldExactly`, and over whole runs `ScopedClients.ScopedReplayIsComplete`).
- Clients of a replaced project need not be told. With the ring still empty, only a cursor ahead of the new head is
  refused (`ProjectReplacement.EmptyRingTellsNothing`); once the replacement is announced, exactly the cursors before
  the front of the new ring and those ahead of its head are, and no other client gets the announcement
  (`ProjectReplacement.OldCursorIsRefused`). One whose cursor is that head keeps the old project whole
  (`ProjectReplacement.OldProjectIsKept`).
- `replay` without a cursor answers without a retention check: it can miss what was evicted
  (`ProjectReplacement.WithoutCursorCanMiss`), and misses nothing if nothing was evicted
  (`ProjectReplacement.WithoutCursor`).
- A project file leaves out the preferences and everything tagged as app data, also where other nodes refer to it: such a
  reference is lost (`SparseReferences.ReferenceIntoPreferencesIsLost`), and, where no two kept children claim one
  declared slot, these are all that are lost (`SparseReferences.ReferredUuidSurvives`).
- A project comes back as it was exactly if it holds no app data, its declared children are in order, no two children
  claim one declared slot, and the saved form of every node can express its fields
  (`SparseProjects.WholeTreeRoundTrip`). A root with a description fails the last condition
  (`SparseProjects.DescribedRootIsNotRestored`); of two children that claim one slot only one comes back
  (`SparseProjects.RivalsAreLost`).
- A delta cannot say that a key or a metadata field is gone, and full metadata leaves out descriptions; these are the
  exact conditions for fields (`SparseDeltas.DataDeltaRoundTrip`, `MetaDeltaRoundTrip`, `FullMetaRoundTrip`, together
  `SparseRoundTrip.FieldsRestored`).
- A character literal with a unicode escape is never recognised by the scanner, which looks for the closing quote one
  character early (`SourceScanner.UnicodeEscapesAreNotRecognised`); all others are (`ScannerGrammar.LiteralIsRecognised`),
  and a source is masked as its tokens say exactly if it has no such literal (`ScannerGrammar.TokensAreMasked`).
  The closing quote of one may then open a literal of its own, and what follows may be taken for a string
  (`ScannerGrammar.UnicodeEscapeDerails`).
- Of two lists shown under one symbol in one scope, the one offered as not shadowed need not be the one that the symbol
  resolves to (`ContextOffers.AnotherListCanMislead`; exactly when it is: `ContextOffers.OfferIsLookupExactly`).
- Label allocation adds one to a 64-bit number unchecked. The model makes running out of numbers an outcome of its
  own, `SuffixOverflow`; a sibling with the largest number leads to it (`ChildLabels.NumbersRunOut`), and it happens
  exactly if every number from the first one on is taken (`ChildLabels.FirstCandidate`).
- Event times increase strictly only until a counter saturates (`ParamEngine.Engine`, `clockStuck`); from then on two
  events share a time (`ParamEngine.SaturatedClockRepeats`).

## Model

| member | source | states |
|---|---|---|
| `Conflation.PreviousIndex` | crates/core/src/ui_read_model.rs:706-730 | The backwards search over the trailing run of coalescable events finds the one about the parameter, and nothing about it lies between that one and the end of the run. |
| `Conflation.MergedEvent` | crates/core/src/ui_read_model.rs:751-767 | A newer event that keeps the older one's start value does what both do, up to the remembered default; exactly, default included, if the two are a chain. |
| `Conflation.ConflatedRun` | crates/core/src/ui_read_model.rs:706-730 | Taking an event out of a run of feedback and merging it into the last event of the run keeps the meaning of the run. |
| `Conflation.RetainKeepsMeaning` | crates/core/src/ui_read_model.rs:706-730 | One retained event keeps the meaning of the ring for every store a client may hold: up to defaults always, exactly if the stream is a chain, and the ring stays a chain. |
| `Conflation.ConflateKeepsMeaning` | crates/core/src/ui_read_model.rs:350-363 | Conflating a whole stream gives the store that the raw stream gives: up to defaults for every stream, exactly and again chained for a chain. |
| `Conflation.ConflateReachesNormalForm` | crates/core/src/ui_read_model.rs:660-704 | After conflation no run holds two events about one parameter. |
| `Conflation.NormalFormIsFixed` | crates/core/src/ui_read_model.rs:660-704 | A stream in that form is a fixed point of conflation. |
| `Conflation.ConflateIsIdempotent` | crates/core/src/ui_read_model.rs:350-363 | Coalescing twice is coalescing once. |
| `Conflation.RetainExactly` | crates/core/src/ui_read_model.rs:706-767 | A new event goes to the end. Of the events before it at most one gives way and passes its start value on: the latest write of the same parameter, if it and all behind it are replaceable writes; and a write is replaceable if it is no trigger and its parameter is there and coalesces. |
| `Conflation.ConflateKeepsStaying` | crates/core/src/ui_read_model.rs:350-363 | Conflation keeps every other event, unchanged and in its place among them: triggers, writes of missing or appending parameters, and whatever is no write. |
| `Conflation.OneWriteIsLeft` | crates/core/src/ui_read_model.rs:350-363 | It leaves no two replaceable writes of one parameter without such an event between them. |
| `Conflation.NeighboursMerge` | crates/core/src/ui_read_model.rs:751-767 | Two neighbouring replaceable writes of one parameter leave one, from the first start value to the last value, at the later time. |
| `StoreSemantics.ApplyKeepsAgreement` | crates/core/src/ui_read_model.rs:453-503 | No event reads a remembered default into anything else: stores that agree up to defaults stay so under any stream. |
| `StoreSemantics.MetaPatchSetsItsFields` | crates/core/src/ui_read_model.rs:579-604 | A metadata patch sets each field that it has to its own value, and leaves all others, the rest of the node and all other nodes alone. |
| `StoreSemantics.ParamPatchSetsItsFields` | crates/core/src/ui_read_model.rs:551-565 | A parameter patch sets value, control state and constraints as far as it has them, of a parameter only, and nothing else. |
| `StoreSemantics.ParamEventSetsItsField` | crates/core/src/ui_read_model.rs:461-500 | An event about value, control state or constraints sets that, of a parameter only, and nothing else. |
| `StoreSemantics.WriteRemembersDefault` | crates/core/src/ui_read_model.rs:461-479 | After a write the remembered default is the one before or else the value written over, and none if that is the new value. |
| `StoreSemantics.OtherEventsChangeNothing` | crates/core/src/ui_read_model.rs:453-503 | Events that are neither transactions nor about parameters leave the store alone. |
| `FeedbackCoalescer.RemoveIndexes` | crates/core/src/ui_read_model.rs:668-681 | Removing a pending event and sliding the higher indices down by one leaves an exact index of the rest. |
| `FeedbackCoalescer.UiFeedbackCoalescer.PushCoalescable` | crates/core/src/ui_read_model.rs:661-685 | Replaces the pending event of the parameter through the index map, keeps the index exact, and drops anything that is not a value event. |
| `FeedbackCoalescer.UiFeedbackCoalescer.ShiftIndicesAbove` | crates/core/src/ui_read_model.rs:673-677 | Every index above the removed position goes down by one and no other changes. |
| `FeedbackCoalescer.UiFeedbackCoalescer.PushBarrier` | crates/core/src/ui_read_model.rs:687-690 | The pending run is flushed in order before the barrier. |
| `FeedbackCoalescer.UiFeedbackCoalescer.FlushPending` | crates/core/src/ui_read_model.rs:697-703 | Pending events move to the output, in order, and the index is emptied. |
| `FeedbackCoalescer.UiFeedbackCoalescer.Finish` | crates/core/src/ui_read_model.rs:692-695 | The result is the output followed by the pending run. |
| `FeedbackCoalescer.SearchAgreesWithIndex` | crates/core/src/ui_read_model.rs:706-720 | On a closed prefix and one indexed run, the ring's backwards search finds exactly what the coalescer's index says. |
| `FeedbackCoalescer.PushIsRetain` | crates/core/src/ui_read_model.rs:660-730 | One event in the batch coalescer is one retained event in a ring with the same contents. |
| `FeedbackCoalescer.CoalesceAgainst` | crates/core/src/ui_read_model.rs:350-363 | The batch coalescer yields exactly what retaining the events one by one yields: events that may not be merged stay, unchanged and in order, and between two writes that may be there is one that may not. |
| `ReplayLog.RetainCovers` | crates/core/src/ui_read_model.rs:706-730 | Conflation after a client's cursor, or across it, is not observable by that client, defaults aside. |
| `ReplayLog.EvictCovers` | crates/core/src/ui_read_model.rs:388-391 | Eviction loses nothing to a client that has seen the last evicted event. |
| `ReplayLog.AppendCovers` | crates/core/src/ui_read_model.rs:384-393 | One append keeps the ring as good as the whole history for every client to which no unseen event is lost. |
| `ReplayLog.RunCovers` | crates/core/src/ui_read_model.rs:218-267 | ... and so does every run of batches, each judged against the store before it. |
| `ReplayLog.ReplayIsComplete` | crates/core/src/ui_read_model.rs:307-344 | For every history with increasing times, every capacity and every cursor, what a client has seen plus the retained events after its cursor give the server's store, defaults aside, unless an event was evicted that the client had not seen. |
| `ReplayLog.LogCovers` | crates/core/src/engine/ui.rs:123-148 | So does a log that judges every event by the nodes of its own time, for every stream with increasing times. |
| `ReplayLog.AfterExactly` | crates/core/src/ui_read_model.rs:334-343 | An event is replayed after a cursor exactly if it is newer than the cursor, or there is none. |
| `ReplayLog.RunKeepsFull` | crates/core/src/ui_read_model.rs:388-391 | A ring never gets shorter, so that a ring below its capacity has evicted nothing. |
| `ReplayLog.RetentionCheck` | crates/core/src/ui_read_model.rs:319-326 | Over every run the retention check admits only cursors to which nothing is lost; it sends one back needlessly exactly if the cursor has seen the last evicted event, and so whenever the ring is below its capacity. |
| `ReplayDefaults.AnchoredRun` | crates/core/src/ui_read_model.rs:706-767 | Merging two events of a run is exact, defaults included, where every event starts from the shown value or a default is shown. |
| `ReplayDefaults.RetainStraightens` | crates/core/src/ui_read_model.rs:706-767 | What one more event leaves in the ring differs, for a client, from what the history would have told it only in where the first changes of parameters start. |
| `ReplayDefaults.ExactIfStartsWhereShown` | crates/core/src/ui_read_model.rs:461-479 | Such a stream does what the history does, defaults included, if it starts where the client is; in a chain of values only if every parameter that starts elsewhere is inserted, removed or patched later in it. |
| `ReplayDefaults.ReplayIsExact` | crates/core/src/ui_read_model.rs:307-344 | A replay gives the server's store exactly, defaults included, if its first changes start from the values the client shows without a default; in a chain of values only if every parameter that starts elsewhere is inserted, removed or patched later, and so, without graph transactions, only then. |
| `ReplayDefaults.MergeAcrossCursor` | crates/core/src/ui_read_model.rs:751-767 | A merge that reaches back across the cursor means the same to the client exactly when the client remembers a default or both events start from the same value. |
| `ReplayDefaults.ReplayCanChangeADefault` | crates/core/src/ui_read_model.rs:461-479 | A concrete run on which replay gives the client another remembered default than the server's. |
| `ReplayDefaults.ResyncCanBeNeedless` | crates/core/src/ui_read_model.rs:319-326 | A concrete run on which a client is sent to resync although nothing was evicted. |
| `UiReadModel.OnceMakesAStore` | crates/core/src/ui_read_model.rs:444-451 | A listing without repeated ids becomes a store keyed by id that enumerates that listing. |
| `UiReadModel.HeadOnlyAdvances` | crates/core/src/ui_read_model.rs:428-431 | The event head is never behind what it was nor behind the event. |
| `UiReadModel.RefusedAs` | crates/core/src/ui_read_model.rs:308-326 | A cursor ahead of the clock is refused as such, another one before the oldest retained event as out of the window, and no other. |
| `UiReadModel.UiReadModel.FromEngine` | crates/core/src/ui_read_model.rs:90-116 | The model starts with the snapshot, its store, an empty ring and the engine's last event time. |
| `UiReadModel.UiReadModel.ReplaceFromEngine` | crates/core/src/ui_read_model.rs:139-176 | Everything is replaced; the ring is cleared except when only engine events are refreshed. |
| `UiReadModel.UiReadModel.SetProjectFile` | crates/core/src/ui_read_model.rs:179-189 | Only the project file changes, and the snapshot is reassembled. |
| `UiReadModel.UiReadModel.ApplyEventCapture` | crates/core/src/ui_read_model.rs:218-267 | The ring grows against the store before the batch, the store follows the batch, the snapshot is reassembled only after structural batches, and it never lags in more than parameter payloads. |
| `UiReadModel.UiReadModel.AppendEvents` | crates/core/src/ui_read_model.rs:384-393 | The ring after a batch is the retained, conflated and evicted one. |
| `UiReadModel.UiReadModel.AppendRetained` | crates/core/src/ui_read_model.rs:706-730 | The in-place search, removal and push compute the retained ring: at most the latest replaceable write of the same parameter gives way, if only replaceable writes follow it. |
| `UiReadModel.UiReadModel.ApplyGraphOp` | crates/core/src/ui_read_model.rs:505-603 | Each graph operation updates the store in place as its meaning says; a patch sets the fields that it has, each to its own value. |
| `UiReadModel.UiReadModel.ApplyEventsToStore` | crates/core/src/ui_read_model.rs:453-503 | The store is updated in place to what the batch means. |
| `UiReadModel.UiReadModel.RebuildCurrentFromStore` | crates/core/src/ui_read_model.rs:397-431 | The assembled snapshot enumerates the store, and the event head only advances. |
| `UiReadModel.UiReadModel.SnapshotForScope` | crates/core/src/ui_read_model.rs:291-305 | A scoped snapshot lists the scope of the last assembled nodes under the current header. |
| `UiReadModel.UiReadModel.ReplayFrom` | crates/core/src/ui_read_model.rs:308-344 | Which replays are resyncs and why; the rest answer with what any listing of the live store would give: for the whole graph all events after the cursor, for a subtree, transactions aside, exactly those that name a node of it. |
| `UiReadModel.UiReadModel.Deliver` | crates/core/src/ui_read_model.rs:334-343 | The events after the cursor, oldest first, each cut down to the scope; transactions aside, exactly those that name a node of the subtree. |
| `UiReadModel.UiReadModel.CoalesceUiFeedbackEvents` | crates/core/src/ui_read_model.rs:350-363 | The payload is conflated against the store: events that may not be merged stay, and one write of a parameter is left between them; store and ring are untouched. |
| `UiReadModel.LaggingSnapshotReplaysLive` | crates/core/src/ui_read_model.rs:773-890 | Scoping a replay against the lagging snapshot gives what the live store gives. |
| `SnapshotShape.ValueEventsKeepShape` | crates/core/src/ui_read_model.rs:926-939 | Events that do not reassemble the snapshot change parameter payloads only. |
| `SnapshotShape.OnlyValuesAreNotRebuilt` | crates/core/src/ui_read_model.rs:926-939 | The snapshot is reassembled after anything but parameter feedback and custom events. |
| `SnapshotShape.ApplyKeepsKeys` | crates/core/src/ui_read_model.rs:505-569 | The store stays keyed by node id under any events. |
| `SnapshotShape.SameShapeClimbs` | crates/core/src/ui_read_model.rs:893-924 | Bottom-up scope tests agree on stores that differ in parameter payloads only. |
| `SnapshotShape.SameShapeDepthFirst` | crates/core/src/ui_read_model.rs:610-635 | ... and top-down listings agree up to those payloads. |
| `SnapshotShape.WholeGraphKeepsAll` | crates/core/src/ui_read_model.rs:773-797 | A replay of the whole graph is not cut down. |
| `SnapshotShape.SameShapeEvents` | crates/core/src/ui_read_model.rs:773-890 | ... and so do scoped streams. |
| `ScopedEvents.EventsAreTold` | crates/core/src/ui_read_model.rs:856-891 | A client of one subtree is told an event other than a transaction, unchanged, exactly if one of the nodes in its own fields is within the subtree. |
| `ScopedEvents.OpsAreKept` | crates/core/src/ui_read_model.rs:798-854 | An operation is passed on exactly if one of the nodes in its own fields is within the subtree, or it removes the root, or it is about history or logs. |
| `ScopedEvents.TransactionsAreCutDown` | crates/core/src/ui_read_model.rs:773-797 | Of a transaction exactly those operations are told, in order and under its own time and number, and nothing if there is none. |
| `ScopedEvents.EventsAreToldInOrder` | crates/core/src/ui_read_model.rs:334-343 | Events are told in their order, each one as if it were alone. |
| `ScopedClients.ScopedFeedback` | crates/core/src/ui_read_model.rs:773-890 | A client of one subtree that is told of feedback about it holds what the server holds of it. |
| `ScopedClients.ScopeIsHeldExactly` | crates/core/src/ui_read_model.rs:773-890 | For any stores, stream and scope: a client that is told what concerns its scope ends with the server's scope exactly if every node in it was held before or came as a snapshot. |
| `ScopedClients.ScopedReplayIsComplete` | crates/core/src/ui_read_model.rs:307-344 | Over every run, capacity and cursor that lost nothing, graph transactions included, scoped replay is complete, defaults aside, exactly under that condition. |
| `ScopedClients.ScopedFeedbackIsComplete` | crates/core/src/ui_read_model.rs:307-344 | It always is while no graph transaction is retained after the cursor. |
| `ScopedClients.MoveIntoScopeIsMissed` | crates/core/src/ui_read_model.rs:773-890 | A concrete move into the scope, of which the client is told, that fails the condition: it does not have the node afterwards. |
| `ProjectReplacement.OldCursorIsRefused` | crates/transport_server/src/project_host.rs:124-168 | After a replacement a cursor of the old project is refused exactly if it is before the front of the new ring or ahead of its head; who is not refused gets no announcement either. |
| `ProjectReplacement.EmptyRingTellsNothing` | crates/core/src/ui_read_model.rs:308-344 | With an empty ring only a cursor ahead of the head is refused, and every other client is told nothing. |
| `ProjectReplacement.OldProjectIsKept` | crates/transport_server/src/ui_server.rs:389-401 | A client of the old project whose cursor is where the new project has come to is not refused and keeps what it held. |
| `ProjectReplacement.WithoutCursor` | crates/core/src/ui_read_model.rs:308-344 | Without a cursor nobody is refused; who holds the store the ring started from ends in the server's, defaults aside, if nothing was evicted, and so while the ring is not full. |
| `ProjectReplacement.WithoutCursorCanMiss` | crates/core/src/ui_read_model.rs:308-344 | A concrete run on which the only change was evicted and a client without a cursor misses it. |
| `OrderedTrees.ReplaceFlattens` | crates/core/src/ui_read_model.rs:505-569 | Replacing the children of one tree node touches that node in the flat store, drops its old descendants and adds the new ones. |
| `TreeEditing.InsertPreorder` | crates/core/src/engine/apply_tree/insert.rs:389-438 | The depth-first listing that an insertion publishes builds the flat store of the inserted subtree. |
| `TreeEditing.InsertCommutes` | crates/core/src/engine/apply_tree/insert.rs:389-438 | Small insertions (single creations and a reordering) and large ones (one operation above the threshold of 8) both take the flat store to the flat store of the edited tree. |
| `TreeEditing.RemoveCommutes` | crates/core/src/engine/apply_tree/remove.rs:5-63 | A removal does, too. |
| `TreeEditing.MoveCommutes` | crates/core/src/engine/apply_tree/move.rs:86-112 | A move does, within one parent (a reordering) and between two. |
| `TreeEditing.EditCommutes` | crates/core/src/ui_sync.rs:881-945 | Every edit's published operations take the flat store to the flat store of the edited, still well-formed tree. |
| `TreeEditing.OpsNameTheirNodes` | crates/core/src/engine/apply_tree/insert.rs:389-438 | What is published for an edit names the moved, removed or inserted nodes and their parents; up to eight inserted nodes are published one by one. |
| `TreeRuns.ChangeCommutes` | crates/core/src/ui_read_model.rs:453-569 | The same for edits and parameter feedback together. |
| `TreeRuns.StoreFollowsTree` | crates/core/src/ui_read_model.rs:505-569 | After every prefix of every run the incremental store is the projection of the live tree. |
| `TreeRuns.ReachableStoresAreForests` | crates/core/src/ui_read_model.rs:505-569 | In every reachable store keys match ids, every listed child is present, and no node is listed twice or under two parents. |
| `SubtreeScopes.SnapshotNodeWithinSubtree` | crates/core/src/ui_read_model.rs:893-910 | The climb accepts a node exactly when the root is an ancestor within the depth. |
| `SubtreeScopes.ClimbsReachesAncestors` | crates/core/src/ui_read_model.rs:893-910 | Climbing with a budget reaches exactly the ancestors at most that far up. |
| `SubtreeScopes.FirstIsFound` | crates/core/src/ui_read_model.rs:912-924 | Where several nodes list a child, the first one is its parent. |
| `SubtreeScopes.FilterSnapshotNodes` | crates/core/src/ui_read_model.rs:610-635 | The stack loop ends on every snapshot, also on cyclic child lists, and lists the scope depth first. |
| `SubtreeScopes.PushChildren` | crates/core/src/ui_read_model.rs:626-631 | Children pushed last to first are what is listed next, in order. |
| `SubtreeScopes.WithinIsListed` | crates/core/src/ui_read_model.rs:610-635 | What the climb accepts is listed, even where a node has several parents. |
| `SubtreeScopes.ListedIsWithin` | crates/core/src/ui_read_model.rs:893-924 | What is listed climbs back to the root, if no node has two parents. |
| `SubtreeScopes.ScopesAgree` | crates/core/src/ui_read_model.rs:610-635 | Top-down and bottom-up scoping select the same nodes. |
| `SubtreeScopes.ScopeOfTree` | crates/core/src/ui_read_model.rs:610-635 | A scoped listing of a live tree is the truncated preorder of the subtree, every node once. |
| `LinkedWalk.DirectChildren` | crates/core/src/ui_sync.rs:3478-3490 | The sibling walk ends on cyclic links and lists the live children of the chain without repetition. |
| `LinkedWalk.CollectSubtreeNodes` | crates/core/src/ui_sync.rs:3456-3497 | On any links, however corrupt, the walk ends, lists live nodes only, and none twice. |
| `LinkedWalk.NodeWithinSubtree` | crates/core/src/ui_sync.rs:3541-3562 | The parent climb is right on any links: the root is reached within the depth, or the answer is no, also on cycles. |
| `LinkedWalk.RepeatedClimbMisses` | crates/core/src/ui_sync.rs:3546-3549 | A climb that comes back to a node it left never reaches a root it has not met. |
| `LinkedWalk.WalkListsTruncatedPreorder` | crates/core/src/ui_sync.rs:3456-3497 | On the links of a tree the walk lists the truncated preorder. |
| `LinkedWalk.ParentLinkIsParentOf` | crates/core/src/ui_read_model.rs:912-924 | Searching the snapshot for a parent finds what the parent link says. |
| `LinkedWalk.EngineAndSnapshotListAlike` | crates/core/src/ui_sync.rs:3456-3497 | Links and snapshot of one tree list the same ids in the same order. |
| `LinkedWalk.EngineAndSnapshotAgree` | crates/core/src/ui_sync.rs:3541-3562 | Both climbs agree on every node, and with both listings. |
| `SparseDeltas.DataDeltaRoundTrip` | crates/core/src/app.rs:1782-1815 | Merging the saved delta onto the baseline gives back the data exactly when the data is not null and drops no baseline key of an object. |
| `SparseDeltas.ObjectDeltaIsMinimal` | crates/core/src/app.rs:1796-1811 | The delta of an object holds exactly the differing keys. |
| `SparseDeltas.DiffProjectData` | crates/core/src/app.rs:1782-1815 | The key-by-key loop computes that delta. |
| `SparseDeltas.MergeSparseJson` | crates/core/src/app.rs:1168-1179 | Key by key, overlay fields replace baseline fields; anything but two objects is replaced whole. |
| `SparseDeltas.MetaDeltaRoundTrip` | crates/core/src/engine/persistence.rs:147-220 | A metadata delta restores the metadata exactly when no baseline field has been cleared. |
| `SparseDeltas.EmptyMetaDelta` | crates/core/src/engine/persistence.rs:147-188 | An empty delta means there is nothing to restore. |
| `SparseDeltas.FullMetaRoundTrip` | crates/core/src/app.rs:1671-1716 | Full metadata over a baseline restores exactly when what the full form leaves out does not differ. |
| `ParameterDeltas.ParameterDeltaRoundTrip` | crates/core/src/parameter/parameter_node.rs:296-394 | Decoding a parameter's merged delta gives back a field exactly when the field is saved or equals the default's. |
| `ParameterDeltas.ParameterDeltaIsMinimal` | crates/core/src/parameter/parameter_node.rs:296-394 | Only what differs from the default is saved, and all of that if there is no default of the node's type. |
| `ParameterDeltas.ParameterComesBackWhole` | crates/core/src/app.rs:1736-1744 | A parameter saved over a default comes back whole exactly when a read-only value that is not to be persisted, and constraints that users may not edit, are as in the default. |
| `SparseCodec.FindSlot` | crates/core/src/app.rs:1656-1665 | The first declared child that a child matches, or none if it matches no declared child. |
| `SparseCodec.SlotsAreKnownByIdentity` | crates/core/src/app.rs:1656-1665 | A child matches a declared child exactly if it has a declared id and that, type and role are the same. |
| `SparseSaving.LeftOutExactly` | crates/core/src/app.rs:1304-1399 | A child of an unrepeated slot is left out exactly if it belongs to another file, or it adds no metadata and no data to its default, nobody refers to it, and so it is for each of its children against the one slot that the child claims. |
| `SparseReferences.DefaultIsLeftOut` | crates/core/src/app.rs:1393-1399 | A child that is its declared default throughout, uuids aside, and to no uuid of which anyone refers, is left out. |
| `SparseSaving.SavedForm` | crates/core/src/app.rs:1671-1815 | What is saved of a node: of a child of an unrepeated slot exactly the fields and data that differ and its declared id; of a child of a repeated slot and of a root all but descriptions and default options; of any other child what differs from the default of its type. |
| `SparseSaving.SavedInOrder` | crates/core/src/app.rs:1370-1391 | The saved children are the saved forms of the kept ones, in their order. |
| `SparseExpansion.PickExactly` | crates/core/src/app.rs:1196-1304 | A slot is filled by the first claim that holds data, a child or metadata besides its declared id, and if none does by the first claim. |
| `SparseExpansion.ExpandSparseNodeRecord` | crates/core/src/app.rs:973-1003 | Recursive expansion with flag arrays computes the expansion. |
| `SparseExpansion.ExpandSparseChildRecords` | crates/core/src/app.rs:1181-1264 | The loops over baselines and flags give one record per declared child in declared order, then the unconsumed saved children. |
| `SparseExpansion.ChooseIndex` | crates/core/src/app.rs:1196-1240 | The chosen index is the first matching saved child with a payload, otherwise the first matching one. |
| `SparseExpansion.LoaderPickIsPick` | crates/core/src/app.rs:1196-1240 | The index choice over flags is the choice over the list of what is left. |
| `SparseExpansion.ConsumingAllClaims` | crates/core/src/app.rs:1196-1264 | Raising the flag of every claim on a slot leaves what dropping those claims leaves. |
| `SparseExpansion.AssignIsDisciplined` | crates/core/src/app.rs:1181-1284 | No saved child is used twice, what is left keeps the saved order, and a saved child is dropped only as a duplicate claim on an unrepeated slot. |
| `SparseExpansion.MergeIsDisciplined` | crates/core/src/app.rs:1181-1284 | The expanded children are one per declared child, with its identity, in declared order, then leftovers in saved order. |
| `SparseExpansion.EncodeSparseNodeRecord` | crates/core/src/app.rs:1304-1422 | The cursor walk over the children computes the saved form; nodes that belong to another file are left out first, and of the others that may be exactly those of which there is nothing to save. |
| `SparseRoundTrip.UnrepeatedPick` | crates/core/src/app.rs:1196-1240 | An unrepeated slot takes the one saved child that claims it. |
| `SparseRoundTrip.RepeatedPick` | crates/core/src/app.rs:1196-1240 | A repeated slot takes the first saved child that claims it and no other. |
| `SparseArrangement.OmittingIsPruning` | crates/core/src/app.rs:1304-1323 | Saving a tree is saving what is left of it after the subtrees of app data are pruned. |
| `SparseArrangement.ArrangedIsInOrder` | crates/core/src/app.rs:1181-1264 | The arranged tree has its declared children first and in declared order, at every level and whatever order they were in. |
| `SparseArrangement.OrderIsKept` | crates/core/src/app.rs:1181-1264 | Loading keeps the order of a tree exactly when its declared children are all there and come first, in declared order. |
| `SparseRoundTrip.RoundTrip` | crates/core/src/app.rs:973-1422 | Expanding what encoding saved for a node gives its saved fields over the default's, and its children laid out in declared order, each as it comes back. |
| `SparseRoundTrip.LeftOutComes` | crates/core/src/app.rs:1393-1399 | A node that is left out and nobody refers to is replaced by its default, which is that same form. |
| `SparseRoundTrip.FieldsRestored` | crates/core/src/app.rs:1671-1733 | A node's metadata and its data come back exactly if the form they are saved in can express them. |
| `SparseProjects.RivalsAreLost` | crates/core/src/app.rs:1196-1264 | However many children claim an unrepeated declared slot, exactly one child that claims it comes back. |
| `SparseProjects.LeftOutIsDefault` | crates/core/src/app.rs:1393-1399 | A kept node that is left out is, uuids apart, the declared default that stands for it, exactly if no two of its children claim one slot and its fields are expressible; nobody refers to it. |
| `SparseProjects.RestoredIsFaithful` | crates/core/src/app.rs:973-1422 | What comes back of a tree without app data is the arranged tree, up to uuids nobody refers to, only if no two children claim one slot; then places always, data exactly if it is expressible, and metadata likewise. |
| `SparseProjects.OnlyOrderlyTreesComeBack` | crates/core/src/app.rs:973-1422 | A tree that comes back as it was holds no app data, has its declared children in order, and no two of its children claim one slot. |
| `SparseProjects.ProjectRoundTrip` | crates/core/src/app.rs:722-752 | Saving and loading restores what is kept of a tree, arranged, exactly if no two kept children claim one slot and every kept field is expressible; the root keeps its uuid, and without rivals every kept node has its place and every kept uuid that is referred to survives in any case. |
| `SparseProjects.WholeTreeRoundTrip` | crates/core/src/app.rs:1304-1422 | ... and the tree itself exactly if it holds no app data, its declared children are in order, no two children claim one slot, and every field is expressible. |
| `SparseProjects.ProjectFileRoundTrip` | crates/core/src/app.rs:592-752 | That for project files, where the preferences and everything tagged as app data are left out. |
| `SparseProjects.SubtreeRoundTrip` | crates/core/src/app.rs:755-785 | A subtree file restores exactly the trees whose declared children are in order and without rivals and whose fields are expressible, app data included. |
| `SparseProjects.RootDescriptionIsLost` | crates/core/src/app.rs:1671-1716 | A root comes back with the description of its type's default, whatever its own. |
| `SparseProjects.DescribedRootIsNotRestored` | crates/core/src/app.rs:1671-1716 | A concrete root that is in order, without app data and rivals, and does not come back as it was, because it has a description. |
| `SparseReferences.PlacesSurvive` | crates/core/src/app.rs:973-1422 | Trees that match have nodes that match in the same places. |
| `SparseReferences.KeptNodeIsLoaded` | crates/core/src/app.rs:722-752 | Every node outside the app data has a place in the loaded project with its type and role and, if anyone refers to it, its uuid; also its data, and its metadata, if they are expressible. |
| `SparseReferences.ReferencesSurvive` | crates/core/src/app.rs:1817-1825 | A reference between two nodes outside the app data is the same reference after saving and loading, if all kept data is expressible. |
| `SparseReferences.CollectedExactly` | crates/core/src/app.rs:1817-1825 | The collected uuids are exactly those that some node of the tree refers to. |
| `SparseReferences.SavedCarries` | crates/core/src/app.rs:1304-1422 | The saved project carries uuids of nodes outside the app data only. |
| `SparseReferences.ReferredUuidSurvives` | crates/core/src/app.rs:1393-1397 | A uuid that is referred to is in the loaded project exactly when a node outside the app data carries it. |
| `SparseReferences.ReferenceIntoPreferencesIsLost` | crates/core/src/app.rs:463-466 | A concrete project whose saved node refers to a preferences node that neither the file nor the loaded project has. |
| `SourceScanner.RawOpening` | crates/codegen_support/src/lib.rs:541-564 | A raw string opens with r or br, hashes and a quote on one line; its length counts them all. |
| `SourceScanner.RawStart` | crates/codegen_support/src/lib.rs:541-564 | The hash loop recognises exactly those openings. |
| `SourceScanner.ClosesRawString` | crates/codegen_support/src/lib.rs:722-732 | A quote closes a raw string exactly when enough hashes follow. |
| `SourceScanner.UnicodeEscapesAreNotRecognised` | crates/codegen_support/src/lib.rs:592-602 | The end computed for a unicode escape is its closing brace, so such a character literal is never recognised. |
| `SourceScanner.ScanMasks` | crates/codegen_support/src/lib.rs:618-756 | One character out for every character in: the source's own or a space, newlines in place, never a double quote. |
| `SourceScanner.KeptIsCode` | crates/codegen_support/src/lib.rs:625-652 | A character that is not blanked was read as code, and what follows is the scan of the rest. |
| `SourceScanner.KeptOpensNothing` | crates/codegen_support/src/lib.rs:625-652 | ... at a place where nothing opens. |
| `SourceScanner.StrippedIsInert` | crates/codegen_support/src/lib.rs:522-759 | Nothing in the output opens a comment or a literal. |
| `SourceScanner.StrippingIsIdempotent` | crates/codegen_support/src/lib.rs:522-759 | Stripping twice is stripping once, for every source. |
| `SourceScanner.StripForScanning` | crates/codegen_support/src/lib.rs:613-759 | The loop over position, mode and output computes the stripped source. |
| `SourceScanner.ScanCode` | crates/codegen_support/src/lib.rs:625-652 | One step in code: the order of the lookaheads decides what opens. |
| `SourceScanner.ScanQuoted` | crates/codegen_support/src/lib.rs:681-721 | One step in a string or character literal: a backslash takes the next character with it. |
| `SourceScanner.ScanRawString` | crates/codegen_support/src/lib.rs:722-754 | One step in a raw string. |
| `SourceScanner.ScanBlockComment` | crates/codegen_support/src/lib.rs:662-680 | One step in a nested comment. |
| `ScannerGrammar.CommentBody` | crates/codegen_support/src/lib.rs:662-680 | A comment is blanked to its own end, with every nested comment closed before it. |
| `ScannerGrammar.QuotedBody` | crates/codegen_support/src/lib.rs:681-721 | A string is blanked to its own closing quote, past every escape. |
| `ScannerGrammar.RawBody` | crates/codegen_support/src/lib.rs:722-754 | A raw string is blanked to the quote with as many hashes as its opening. |
| `ScannerGrammar.LiteralIsRecognised` | crates/codegen_support/src/lib.rs:566-611 | A well-formed character literal, plain, escaped or hexadecimal, is recognised whatever follows it; one with a unicode escape never is. |
| `ScannerGrammar.LiteralsExactly` | crates/codegen_support/src/lib.rs:566-606 | A text opens a character literal exactly if it begins with a quote, one character other than a backslash or an escape that is not unicode, and a quote. |
| `ScannerGrammar.RawStringsExactly` | crates/codegen_support/src/lib.rs:541-564 | A text opens a raw string exactly if it begins with r or br, hashes and a quote. |
| `ScannerGrammar.OpensExactly` | crates/codegen_support/src/lib.rs:625-652 | A comment or a literal opens exactly where the text begins as one is written. |
| `ScannerGrammar.LifetimeIsKept` | crates/codegen_support/src/lib.rs:603-606 | A quote and a name with no quote after it is a lifetime and is kept. |
| `ScannerGrammar.TokensAreMasked` | crates/codegen_support/src/lib.rs:522-759 | A source written from tokens is stripped to their masks exactly if no token is a unicode escape: code and lifetimes stay, and exactly comments, strings, raw strings and character literals are blanked, newlines aside. |
| `ScannerGrammar.UnicodeEscapeDerails` | crates/codegen_support/src/lib.rs:592-602 | After two adjacent literals of which the first is a unicode escape and the second a double quote, everything up to the next double quote is taken for a string. |
| `UserContexts.LookupIsUnique` | crates/core/src/contexts.rs:676-748 | The nearest-ancestor lookup has one answer. |
| `UserContexts.UserContextRegistry.ResolveSymbol` | crates/core/src/contexts.rs:676-748 | With the cache or without, the answer is the nearest ancestor's entry, a mismatch with it, or that there is none; generations may have saturated. |
| `UserContexts.UserContextRegistry.Climb` | crates/core/src/contexts.rs:701-735 | The climb finds the nearest declaring ancestor; the depth saturates. |
| `UserContexts.UserContextRegistry.EnsureScope` | crates/core/src/contexts.rs:477-484 | A missing scope is created, an existing one left alone; the cache stays truthful. |
| `UserContexts.UserContextRegistry.RemoveScope` | crates/core/src/contexts.rs:489-495 | A scope is removed if it is there; the cache stays truthful. |
| `UserContexts.UserContextRegistry.UpsertEntry` | crates/core/src/contexts.rs:500-508 | The trimmed symbol is key and symbol of a scalar entry. |
| `UserContexts.UserContextRegistry.UpsertMultiplexListEntry` | crates/core/src/contexts.rs:513-529 | ... of a list entry. |
| `UserContexts.UserContextRegistry.UpsertAdditionalMultiplexListEntry` | crates/core/src/contexts.rs:535-554 | ... and a further list is stored under its link symbol. |
| `UserContexts.UserContextRegistry.UpsertEntryKindWithKey` | crates/core/src/contexts.rs:569-602 | Refused for an empty symbol or a missing scope; a change exactly if the entry is new; the cache stays truthful. |
| `UserContexts.UserContextRegistry.RemoveEntry` | crates/core/src/contexts.rs:607-624 | Removes the entry under the trimmed symbol and nothing else. |
| `UserContexts.UserContextRegistry.Prune` | crates/core/src/contexts.rs:629-667 | Dead scopes and invalid entries go, and the result says whether anything changed; the cache stays truthful. |
| `UserContexts.UserContextRegistry.MarkGraphChanged` | crates/core/src/contexts.rs:670-673 | Announcing a new graph empties the cache. |
| `UserContexts.PrunedAnswersAreLive` | crates/core/src/contexts.rs:629-667 | After pruning no lookup answers with a dead owner or an invalid parameter. |
| `UserContexts.PrunedExactly` | crates/core/src/contexts.rs:629-667 | Exactly the entries of live owners are left, unchanged, that lead to valid parameters only, all items of a list included. |
| `UserContexts.UpsertsOneKey` | crates/core/src/contexts.rs:569-602 | An upsert changes entries under one key only, and reports a change exactly when there is one. |
| `UserContexts.OtherSymbolsKeepTheirMeaning` | crates/core/src/contexts.rs:531-534 | An entry stored under one key leaves the lookups of all other symbols alone. |
| `UserContexts.UserContextRegistry.CollectCandidates` | crates/core/src/contexts.rs:751-805 | Every visible entry is offered once, nearer scopes first and those of a scope by symbol, shadowed exactly if its symbol came before; what is returned is that list, sorted. |
| `UserContexts.CandidatesAreSorted` | crates/core/src/contexts.rs:798-803 | Sorting puts the same candidates in ascending order of depth, symbol and parameter, and leaves tied ones in the order they were listed. |
| `Text.BeforeExactly` | crates/core/src/contexts.rs:768 | In the order of texts the first character that differs decides, and a text comes before its continuations. |
| `Text.TrimExactly` | crates/core/src/contexts.rs:541 | What trimming cuts off is white space, and all of it at both ends. |
| `UserContexts.SortBySymbol` | crates/core/src/contexts.rs:768-769 | All entries of a scope, once each, in the order of the symbols they show. |
| `ContextOffers.ShownIsOffered` | crates/core/src/contexts.rs:751-797 | Every symbol that some visible entry shows has a candidate that is not shadowed. |
| `ContextOffers.UnshadowedIsNearest` | crates/core/src/contexts.rs:771-775 | That candidate comes from the nearest scope that shows the symbol. |
| `ContextOffers.UnshadowedIsLookup` | crates/core/src/contexts.rs:751-797 | Where the symbol has one meaning there, it is the entry the symbol resolves to, whatever type is expected. |
| `ContextOffers.SomeListingStartsWith` | crates/core/src/contexts.rs:766-771 | Entries with equal symbols come in hash order: each of them is first in some listing. |
| `ContextOffers.OfferIsLookupExactly` | crates/core/src/contexts.rs:676-797 | In every listing the unshadowed candidate of a symbol is its lookup exactly if the nearest scope that shows the symbol is also the nearest with an entry under it, and every entry there that shows it says the same. |
| `ContextOffers.AnotherListCanMislead` | crates/core/src/contexts.rs:531-554 | A scope with two lists of one name, stored as the registry stores them: the name resolves to the first, and a listing may offer the second. |
| `LaneIndex.FindDim` | crates/core/src/contexts.rs:878-880 | The innermost frame of a dimension, or none if there is none. |
| `LaneIndex.ComputeLaneIndex` | crates/core/src/contexts.rs:891-919 | There is a lane exactly when all dimensions are found in range, extents are not zero and their product fits; overflow checks fail in no other case. |
| `LaneIndex.LanesAreDistinct` | crates/core/src/contexts.rs:891-919 | Lanes are below the product and different for different index vectors. |
| `LaneIndex.EveryLaneIsReached` | crates/core/src/contexts.rs:891-919 | Every number below the product is the lane of some stack, for different dimensions. |
| `LaneIndex.DigitsOfFlat` | crates/core/src/contexts.rs:904-915 | The digits of a lane are the indices it was computed from. |
| `MultiplexLinks.SymbolsAsWritten` | crates/core/src/contexts.rs:61-69 | The link symbols are the marker, the axis and index, index0 or the list symbol, with colons between them. |
| `MultiplexLinks.RoundTrip` | crates/core/src/contexts.rs:61-98 | A link symbol reads back as its target exactly for a non-empty colon-free axis and a non-empty list name without white space at its end. |
| `MultiplexLinks.ReadingInvertsWriting` | crates/core/src/contexts.rs:61-98 | A text reads as a target exactly when it is, trimmed, the symbol of that target. |
| `MultiplexLinks.SymbolsDoNotCollide` | crates/core/src/contexts.rs:61-69 | Symbols of different targets never collide. |
| `ListenerIndex.ListenerIndex.Add` | crates/core/src/engine/listener_index.rs:29-39 | Inserts one triple; both maps stay exact transposes without repetition or empty lists. |
| `ListenerIndex.ListenerIndex.Remove` | crates/core/src/engine/listener_index.rs:41-61 | Deletes one triple, by swapping removal in both maps. |
| `ListenerIndex.ListenerIndex.PurgeForNode` | crates/core/src/engine/listener_index.rs:64-87 | Deletes every triple that mentions the node, also subscriptions to itself and several depths of one pair. |
| `ListenerIndex.ListenerIndex.ListenersForOrigin` | crates/core/src/engine/listener_index.rs:90-92 | Exactly the listeners of an origin, each once. |
| `ListenerIndex.ListenerIndex.IsEmpty` | crates/core/src/engine/listener_index.rs:20-22 | True exactly for no triples. |
| `ListenerIndex.ListenerIndex.Clear` | crates/core/src/engine/listener_index.rs:24-27 | No triple is left. |
| `ListenerIndex.SwapRemoveRemoves` | crates/core/src/engine/listener_index.rs:44 | Moving the last element into the gap removes exactly the one at the gap. |
| `ListenerIndex.ForgetListener` | crates/core/src/engine/listener_index.rs:66-74 | One node leaves the lists of everything it subscribed to, and nothing else changes. |
| `ListenerIndex.ForgetOrigin` | crates/core/src/engine/listener_index.rs:77-85 | One origin leaves the lists of everyone who listened, and nothing else changes. |
| `ListenerIndex.CollectSubscriptionRecipients` | crates/core/src/engine/dispatch.rs:420-447 | Looking up only the ancestors finds exactly the recipients a scan of all subscriptions would, each once. |
| `ParamEngine.WriteIsItsEvent` | crates/core/src/ui_sync.rs:351-372 | The event of a write, applied to the projection, is the write: value and shown default. |
| `ParamEngine.ConstraintsAreTheirEvent` | crates/core/src/ui_read_model.rs:491-499 | The event of a constraints change is that change. |
| `ParamEngine.ShownDefault` | crates/core/src/ui_sync.rs:351-358 | A default is shown exactly while the value differs from it, and together they always give the declared default. |
| `ParamEngine.ShownAsItIs` | crates/core/src/ui_sync.rs:351-372 | Everything else that a snapshot shows of a parameter and its node is as it is. |
| `ParamEngine.PrepareExactly` | crates/core/src/engine/apply_param.rs:14-75 | An unresolved reference is refused first, then a missing node, then one that is no parameter; otherwise the value, or what the reference resolves to, is adapted to the current value and then to the constraints, and refused only if that fails. |
| `ParamEngine.OnlyRepeatsAreRedundant` | crates/core/src/engine/apply_param.rs:58-63 | Only writing again what is there is without effect, never a trigger, and only where values are compared. |
| `ParamEngine.Engine.ConstrainedExactly` | crates/core/src/engine/apply_param.rs:122-171 | The value is adapted to the new constraints, and nothing but value and constraints changes. |
| `ParamEngine.ChangeIsAnnounced` | crates/core/src/engine/apply_param.rs:629-659 | What differs is announced, from what it was to what it is, the value first, and nothing else. |
| `ParamEngine.ClocksCountByOne` | crates/core/src/engine/apply.rs:384-392 | A clock part goes on by one until it stands at its maximum. |
| `ParamEngine.FoldGivesLiveState` | crates/core/src/engine/apply_param.rs:40-119 | Folding the events over the initial nodes gives the live value, constraints and default. |
| `ParamEngine.WritesFormAChain` | crates/core/src/engine/apply_param.rs:88-92 | Each write of a parameter starts from the value its previous write left. |
| `ParamEngine.Engine.EmitEvent` | crates/core/src/engine/apply.rs:384-392 | Events are stamped in strictly increasing order until a counter saturates; the log stays what conflating and evicting leaves of the stream. |
| `ParamEngine.SaturatedClockRepeats` | crates/core/src/engine/apply.rs:384-392 | Two events of one change have increasing times exactly while the sequence number can advance; at its maximum they share one. |
| `ParamEngine.Engine.PushUiEventLog` | crates/core/src/engine/ui.rs:123-148 | The engine's log conflates and evicts as the read model's ring does. |
| `ParamEngine.Engine.UiEventsSince` | crates/core/src/engine/ui.rs:29-42 | A capture collects exactly the retained events newer than its cursor. |
| `ParamEngine.Engine.BeginTick` | crates/core/src/engine/runtime/tick.rs:64-66 | A tick advances the clock past every event. |
| `ParamEngine.Engine.BeginStabilizationPass` | crates/core/src/engine/runtime/stabilization.rs:60-61 | So does a stabilization pass. |
| `ParamEngine.Engine.ApplySetParam` | crates/core/src/engine/apply_param.rs:14-119 | Refused, without effect, or one chained event; stream, caches and log stay those of the live nodes. |
| `ParamEngine.Engine.ApplySetParamConstraints` | crates/core/src/engine/apply_param.rs:122-171 | The value is adapted to the new constraints; up to two events, value first, and none if nothing changed. |
| `ParamEngine.Engine.ApplyRestoreParamState` | crates/core/src/engine/apply_param.rs:452-487 | History puts back value and constraints with the events that say so. |
| `ParamEngine.Engine.AnnounceChange` | crates/core/src/engine/apply_param.rs:629-659 | What is announced is what differs, value first; the caches learn the written value. |
| `LateClients.CaptureKeepsAgreement` | crates/core/src/ui_read_model.rs:198-213 | A store that followed the engine up to one capture follows it to the next, although the log conflates events across captures. |
| `LateClients.PublicationFollows` | crates/core/src/ui_read_model.rs:198-267 | After any number of captures the store agrees with the engine and the received stream is increasing. |
| `LateClients.LateClientsConverge` | crates/core/src/ui_read_model.rs:307-344 | Engine log, captures, ring and replay together: a late client ends where the stream leads, defaults aside, unless an event was evicted before it was seen. |
| `LateClients.CaptureIsExact` | crates/core/src/engine/ui.rs:29-42 | A capture is exact, defaults included, if it starts where the read model is; in a chain of values only if every parameter that starts elsewhere is inserted, removed or patched later in it. |
| `LateClients.PublicationIsExact` | crates/core/src/ui_read_model.rs:198-267 | If every capture does, the read model's store is the engine's, defaults included. |
| `LateClients.LateClientsAreExact` | crates/core/src/ui_read_model.rs:307-344 | ... and a late client whose replay starts where it is ends there exactly. |
| `LateClients.LateClientsSeeParameters` | crates/core/src/engine/apply_param.rs:88-119 | A late client shows the engine's live values and constraints. |
| `LateClients.LateClientsSeeTheTree` | crates/core/src/ui_read_model.rs:505-569 | A late client shows the live tree. |
| `LateClients.CaptureCanChangeADefault` | crates/core/src/engine/ui.rs:123-148 | A concrete run on which the engine log's conflation makes the read model remember a wrong default. |
| `ChildLabels.NextUniqueChildLabel` | crates/core/src/engine/blueprints.rs:250-288 | Beside the children along the chain of siblings: the preferred label if free, otherwise the base with the first free number; trimmed, not empty, and carried by none of them. |
| `ChildLabels.FirstCandidate` | crates/core/src/engine/blueprints.rs:279-287 | The search ends for every set of used labels, at most as many numbers further as there are labels, or has tried every 64-bit number. |
| `ChildLabels.UsedMeans` | crates/core/src/engine/blueprints.rs:261-273 | The used labels are exactly the trimmed, non-empty labels of the siblings. |
| `ChildLabels.CandidatesDiffer` | crates/core/src/engine/blueprints.rs:282 | Different numbers make different labels. |
| `ChildLabels.CandidateContinues` | crates/core/src/engine/blueprints.rs:291-303 | A numbered label is continued from its own number. |
| `ChildLabels.BaseExactly` | crates/core/src/engine/blueprints.rs:291-303 | A label that ends in a number from 2 on, behind a space and a text that is not blank, is continued from that number; any other is numbered from 2 on. |
| `ChildLabels.OnlyDigitsAreRead` | crates/core/src/engine/blueprints.rs:298-300 | Only digits are read as a number, with a plus sign before them or not. |
| `ChildLabels.EnoughNumbers` | crates/core/src/engine/blueprints.rs:279-287 | With no more siblings than numbers left there is always a label. |
| `ChildLabels.NumbersRunOut` | crates/core/src/engine/blueprints.rs:279-303 | A sibling that carries the largest 64-bit number leaves no label to a child that is to be called like it. |
| `ChildLabels.ParseOfDecimal` | crates/core/src/engine/blueprints.rs:298-300 | A printed number reads back as itself, and not at all above 64 bits. |

## Left out

- HTTP, WebSocket and Tauri hosts, file dialogs, timing, logging and recovery reports: no invariant to state.
- Locks: every public call of the read model and the registry is one step.
- Code generation in `core_macros` and `node_macros.rs`.
- Undo and redo, the tick scheduler and node callbacks. Structural edits appear as the tree edits they perform and the
  operations they publish; the engine's own creation, removal and restore of nodes are not modelled, nor are the side
  effects of node creation and deletion on listeners and counters.
- Parameter control state, script configuration and metadata patches of the engine: their events appear in the store's
  semantics, their application on the engine does not.
- Adapting a value to its kind and constraints, and resolving a reference, are parameters of `ParamEngine`; node types of
  applications that override parameter behaviour are not modelled.
- Parameter values are compared with a lawful equality: floating-point payloads are `real`, and NaN is not modelled.
- Opaque texts stand for constraints, control states, permissions, presentation and summaries of node data, and for
  the history, logger, context and schema parts of a snapshot; runtime statistics are not modelled.
- Graph transactions carry no epoch or graph version.
- Sparse files: JSON is a datatype without syntax; factories and temporary engines are one function from node type and
  role to declared children; uuids are opaque and fresh ones are placeholders; item roots whose defaults depend on their
  parent, factory failures and the cache keys are not modelled. The tree codec saves the data of every node by the
  generic delta; parameters have a delta of their own, which may leave out their value and constraints, and its round
  trip is stated apart, in `ParameterDeltas`. 
- The scanner is modelled on ASCII, one character per byte; the number of nested comments and hashes is unbounded.
- Trimming knows the Unicode white space of the standard library; no other Unicode property is used.
- SparseExpansion.ExpandSparseNodeRecord: does not model saved data that a factory cannot decode, because decoding is not part of the model.
- SparseExpansion.ExpandSparseChildRecords: does not model that a declared child falls back to its default, or another child is skipped, when its saved data cannot be decoded.
- SparseExpansion.EncodeSparseNodeRecord: saves parameters by the generic delta; see `ParameterDeltas` for theirs.
- SparseProjects.WholeTreeRoundTrip: assumes that no factory declares a child that belongs to the app data (the application adds its preferences by an edit); where one does, `SparseProjects.ProjectRoundTrip` says that its default comes back.
- SparseProjects.ProjectFileRoundTrip: assumes the same.
- UserContexts.UserContextRegistry.ResolveSymbol: requires that the climb ends, because the original does not end on a parent cycle without a declaration.
- ParamEngine.Engine.EmitEvent: does not model the side effects of node creation and deletion on listeners and counters, nor the compaction threshold of the log's backing vector.
- ChildLabels.NextUniqueChildLabel: requires that the chain of siblings ends, because the original does not end on a cyclic one.
- ListenerIndex.CollectSubscriptionRecipients: whether a node is alive and takes an event is one function; hash order is arbitrary.
- Template tokens of multiplex contexts, candidate projections, context validation and the DTO conversions not named above: easy members.
- Edit queue, blueprint registry, preferences, colours, dashboards.
