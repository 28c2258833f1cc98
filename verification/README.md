# Cditor core verification

A Dafny model of the parts of Cditor whose correctness rests on data that must stay consistent over
many steps: rich-text runs, the video frame mailbox, cancellation, two image caches, the canvas
document with its history, a bounded line reader, Excalidraw group reconstruction, smart-guide
snapping, Base64 and UTF-8 chunking, and frame row compaction. `dafny verify dfyconfig.toml` checks
everything.

## The modules

- `Basics` - optional values, bytes and three facts about sequences, maps and products.
- `StyleRuns` - a list of styled byte ranges stands for a total function from offsets to styles. Its
  canonical form is unique, so what is shown offset by offset becomes equality of lists: the edits
  are specified by the function they produce, and their laws are equalities of run lists.
- `FrameMailbox` - one decoder, any number of renderers holding leases. Every locked section is one
  atomic step and the theorems quantify over every sequence of steps. Ghost counters record what the
  statistics do not: leases dropped without their frame, acknowledgements that came too late, marks,
  marked frames that were then replaced, and cleared frames.
- `Cancellation` - the atomic flag, the lock and the slot as separate steps of one waiter and any
  number of cancellers; the sequential classes are shown to be uninterrupted runs of those steps.
- `CacheEviction`, `ImageCache`, `SvgCache` - eviction as a declarative relation (who may go, in
  which order, when it stops), and GPU images retired exactly when their last entry goes.
- `CanvasDocument` - shape map, z-order, grouping, and the two snapshot stacks.
- `Utf8`, `LineReader` - UTF-8 on bytes by the table of section 4 of RFC 3629, shown to be the encodings of section 3,
  and text chunking; the streaming reader against a specification that splits the whole input.
- `GroupAssembly` - nested groups rebuilt from flat elements with group paths.
- `SmartGuides` - the nested searches against an independent statement of which positions line up
  with one box or are evenly spaced with two; guides, chains and tick marks included.
- `Base64` - both directions against bit strings, as in section 4 of RFC 4648.
- `FrameRows` - checked arithmetic, buffer capacities, slices and `expect` calls, with panics as a
  possible outcome.

Code that works step by step is modelled by methods and classes proved against a specification
function or relation; the laws are lemmas about that specification.

## Where the code does less than it seems to promise

- The image cache's entry limit is not an invariant: starting a load inserts without trimming, and the
  count is then unbounded, whatever the capacity (`EntryCountUnbounded`, exact guard in
  `StartKeepsLimitExactly`).
- The debug assertion after a failed load, that nothing is retired (image_loader.rs:541), is not true
  of the cache: `FailedFinishMayRetire` is a run from a new cache of any capacity that breaks it. It
  fails if and only if some cached image is held only by entries with fewer older non-loading entries
  than the count exceeds the limit by (`FailedFinishRetiresExactly`).
- Marking a generation that a lease still holds lets its frame count as presented and as overwritten
  (`MarkBreaksLedger`; the exact condition is `StepKeepsLedgerExactly` and `LedgerExactly`).
- Taking the latest frame is documented as happening under one lock (frame_store.rs:139-145), but the
  claim, the acknowledgement and the reading of the statistics are three locked sections
  (frame_store.rs:175-188). The model follows the code. `TakeCountedExactly` says when a take is
  counted, whatever happens between its sections; of two takes that interleave one may go uncounted
  (`InterleavedTakesLoseOne`).
- A `cancel` call that loses the flag swap returns before the winner has woken the waiter
  (`LosingCancelReturnsEarly`); the no-lost-wakeup theorem is about the winning call.
- A group is documented to stand where its frontmost member stood (canvas.rs:313), but ids that are
  repeated or name no shape push it down (`UnknownIdSinksGroup`); `GroupPlacement` says exactly when
  the promise holds.
- Moving an unknown id to the front or back, or adding an id twice, breaks the z-order; each edit's
  exact condition is `EditKeepsListedExactly`.
- `render_image_from_frame` does not check the layout. It panics exactly on short unpadded data, where
  it slices, and on padded frames whose pixels fit `usize` but no buffer, where it asks for the
  capacity (`RenderImageFromFrame`); `FramesThatPanic` has a frame of each kind.
- The Base64 decoder accepts texts no encoder writes, a lone pad for example (`LonePadDecodes`);
  `ReencodesExactly` says which.

## Model

| member | source | states |
|---|---|---|
| StyleRuns.CanonicalUnique | components/cditor-whiteboard/src/model.rs:202-232 | two canonical run lists with the same style at every offset are the same list |
| StyleRuns.NormalizeStyles | components/cditor-whiteboard/src/model.rs:202-224 | for disjoint segments the result is canonical (sorted, disjoint, non-empty, non-plain, no touching equal runs) and has the same style at every offset |
| StyleRuns.StyleSegments | components/cditor-whiteboard/src/model.rs:184-199 | the segments tile the range without gap or overlap and each carries the style of all its offsets |
| StyleRuns.ActiveStyle | components/cditor-whiteboard/src/model.rs:237-257 | each flag by name, or a colour, is active exactly when every offset of the range has it; for an empty range, the style before the caret |
| StyleRuns.ReplaceSegment | components/cditor-whiteboard/src/model.rs:261-278 | inside the range the styles of the given segments, outside the old ones, in canonical form |
| StyleRuns.ToggleFormat | components/cditor-whiteboard/src/model.rs:282-296 | only this flag changes, only inside the range, to "not every offset had it" |
| StyleRuns.ToggleSetsNamedField | components/cditor-whiteboard/src/model.rs:282-296 | bold, italic, underline and strike each set the field of that name inside the range, to whether some offset lacked it, and no other field |
| StyleRuns.ToggleHighlight | components/cditor-whiteboard/src/model.rs:300-314 | only the highlight changes, only inside the range: removed if every offset had the colour, else set |
| StyleRuns.SpliceStyles | components/cditor-whiteboard/src/model.rs:318-340 | old styles before the edit, the insert style inside, the old styles shifted after it, in canonical form |
| StyleRuns.ClampNeverFires | components/cditor-whiteboard/src/model.rs:318-340 | the clamp to 0 in the shift is never needed, and the shift is inverted by looking back |
| StyleRuns.AssembledReplaces | components/cditor-whiteboard/src/model.rs:261-278 | the clipped and shifted outer runs with the new middle are disjoint and give each offset its style |
| StyleRuns.InsertThenDelete | components/cditor-whiteboard/src/model.rs:318-340 | deleting exactly what was inserted gives back the original list |
| StyleRuns.ReplaceIsDeleteThenInsert | components/cditor-whiteboard/src/model.rs:318-340 | replacing a selection equals deleting it and inserting at its start, as lists |
| StyleRuns.ToggleFlipsAll | components/cditor-whiteboard/src/model.rs:282-296 | after a toggle the whole range has the flag exactly when it did not before |
| StyleRuns.ToggleThrice | components/cditor-whiteboard/src/model.rs:282-296 | toggling three times is toggling once, as lists |
| StyleRuns.ToggleTwice | components/cditor-whiteboard/src/model.rs:282-296 | toggling twice restores the list if and only if the range was uniform in the flag |
| StyleRuns.HighlightThrice | components/cditor-whiteboard/src/model.rs:300-314 | highlighting three times is highlighting once, as lists |
| StyleRuns.HighlightTwice | components/cditor-whiteboard/src/model.rs:300-314 | highlighting twice restores the list if and only if all of the range had the colour or none of it any |
| FrameMailbox.EveryRunIsSafe | components/cditor-video/src/frame_store.rs:67-125 | in every interleaving open leases have distinct generations, none equal to an occupied mailbox's; no drop loses its frame silently; the books balance |
| FrameMailbox.NoSilentLoss | components/cditor-video/src/frame_store.rs:84-104 | a dropped lease's frame goes back or is counted overwritten by a newer generation; the third case cannot occur |
| FrameMailbox.LedgerOfLeasedRuns | components/cditor-video/src/frame_store.rs:67-125 | in runs without marks and clears: published = presented + overwritten + mailbox + leases + late + abandoned |
| FrameMailbox.StepKeepsLedgerExactly | components/cditor-video/src/frame_store.rs:205-229 | a step preserves that ledger if and only if it is not a mark of an unacknowledged generation, the replacement of a marked frame, or a clear of a frame |
| FrameMailbox.LedgerExactly | components/cditor-video/src/frame_store.rs:205-229 | over any run the ledger holds if and only if marks are matched by marked or cleared frames leaving the mailbox |
| FrameMailbox.MarkBreaksLedger | components/cditor-video/src/frame_store.rs:205-214 | a run, for any two frames: marking a leased generation counts its frame as presented and as overwritten |
| FrameMailbox.TakeCountedExactly | components/cditor-video/src/frame_store.rs:67-80 | in every reachable state, a claim followed by any steps that keep its lease and then its commit is counted if and only if the claimed generation was unacknowledged at the claim and no step in between acknowledged it or a later one |
| FrameMailbox.InterleavedTakesLoseOne | components/cditor-video/src/frame_store.rs:175-188 | a concrete run of two interleaved takes, pixels taken out: both frames are taken, one presentation is counted |
| FrameMailbox.NewestFrameWins | components/cditor-video/src/frame_store.rs:84-104 | whatever happens, a frame in the mailbox is the latest publication |
| FrameMailbox.ClaimThenDropRestores | components/cditor-video/src/frame_store.rs:84-104 | claiming and dropping with nothing in between restores the store; a claim succeeds exactly for a newer present frame |
| FrameMailbox.VideoFrameStore.Publish | components/cditor-video/src/frame_store.rs:108-125 | the next generation with the frame in the mailbox, and overwritten counted exactly when an unacknowledged frame was there; the answer is the new generation, that frame and the new statistics |
| FrameMailbox.VideoFrameStore.Claim | components/cditor-video/src/frame_store.rs:151-169 | a lease if and only if a frame newer than asked for is there, and then it holds that frame and generation and leaves the rest; a failed claim changes nothing |
| FrameMailbox.VideoFrameStore.TakeLatest | components/cditor-video/src/frame_store.rs:175-188 | uninterrupted, a claim and an acknowledgement: the frame that was in the mailbox, counted unless already acknowledged; when nothing is taken nothing changes |
| FrameMailbox.VideoFrameStore.MarkPresented | components/cditor-video/src/frame_store.rs:205-214 | the acknowledgement step: counted if and only if the generation is published and above the last one presented |
| FrameMailbox.VideoFrameStore.ClearIfGeneration | components/cditor-video/src/frame_store.rs:219-229 | empties the mailbox if and only if the generation is the newest, and changes nothing else |
| FrameMailbox.VideoFrameStore.HasUnpresentedFrame | components/cditor-video/src/frame_store.rs:197-203 | true exactly when a claim after the last presented generation would succeed, and exactly when the next publication would count a frame as overwritten |
| FrameMailbox.VideoFrameLease.TakeFrame | components/cditor-video/src/frame_store.rs:53-55 | hands the frame out once |
| FrameMailbox.VideoFrameLease.ReturnFrame | components/cditor-video/src/frame_store.rs:59-64 | refills an empty lease and leaves a full one alone |
| FrameMailbox.VideoFrameLease.Commit | components/cditor-video/src/frame_store.rs:67-80 | acknowledges the generation in the store, counted if and only if it is above the last one presented; the mailbox stays as it is |
| FrameMailbox.VideoFrameLease.Drop | components/cditor-video/src/frame_store.rs:84-104 | nothing if committed or without its frame; else the frame returns to an empty mailbox of its generation, or is counted overwritten by a newer one |
| Cancellation.NoLostWakeup | components/cditor-video/src/session.rs:68-146 | in every interleaving: once the winning cancel has returned, a future waiting on a waker has had that waker woken, and only it |
| Cancellation.WokenExactly | components/cditor-video/src/session.rs:69-129 | while the future waits, its waker has been woken if and only if the winner is past its wake |
| Cancellation.AtMostOneWake | components/cditor-video/src/session.rs:69-76 | across all cancellers at most one wake is issued, and the lock is never held twice |
| Cancellation.DropUnregisters | components/cditor-video/src/session.rs:133-145 | a dropped future leaves no waker in the slot, unless the winner is about to take it out |
| Cancellation.CancelAlwaysReturns | components/cditor-video/src/session.rs:69-76 | progress: from every reachable state with a winner at most seven steps of the winner and of a waiter holding the lock let the winning cancel return |
| Cancellation.WaiterCanBeWoken | components/cditor-video/src/session.rs:68-129 | progress: whenever the flag is set while a future waits, at most seven steps wake its waker, once |
| Cancellation.ReadyMeansCancelled | components/cditor-video/src/session.rs:106-129 | in every interleaving the future is ready only after a cancellation |
| Cancellation.PollFollowsFlag | components/cditor-video/src/session.rs:106-129 | a poll that loads the flag set, before the lock or under it, is ready and no longer registered; one that loads it clear under the lock has its waker in the slot and is pending |
| Cancellation.LosingCancelReturnsEarly | components/cditor-video/src/session.rs:69-76 | a concrete run: a losing cancel has returned while the waiter is not yet woken |
| Cancellation.UninterruptedPoll | components/cditor-video/src/session.rs:106-129 | the poll steps in sequence are the sequential poll |
| Cancellation.UninterruptedDrop | components/cditor-video/src/session.rs:133-145 | the drop steps in sequence are the sequential drop |
| Cancellation.UninterruptedCancel | components/cditor-video/src/session.rs:69-76 | the cancel steps in sequence are the sequential cancel |
| Cancellation.VideoCancellationToken.Cancel | components/cditor-video/src/session.rs:69-76 | the flag is set; the first cancel empties the slot and wakes what was in it, a later one changes nothing; as the sequential cancel |
| Cancellation.VideoCancellationFuture.Poll | components/cditor-video/src/session.rs:106-129 | ready if and only if cancelled, then unregistered; else the waker is in the slot; as the sequential poll |
| Cancellation.VideoCancellationFuture.Drop | components/cditor-video/src/session.rs:133-145 | empties the slot if and only if the future is registered and the slot holds its waker; as the sequential drop |
| CacheEviction.PushKeepsExact | crates/cditor-editor-gpui/src/image_loader.rs:295-308 | retiring an image that lost an entry keeps the retired list equal to what is no longer cached, without repetition, shared images included |
| CacheEviction.PassEnds | crates/cditor-editor-gpui/src/image_loader.rs:277-293 | a finished eviction loop removed a least-preferred set, stopped as early as possible, and left the limits met or nothing evictable |
| CacheEviction.EvictedExactly | crates/cditor-editor-gpui/src/image_loader.rs:277-293 | an evictable entry goes if and only if what is left after removing everything preferred for eviction does not fit the limits |
| CacheEviction.EvictionUnique | crates/cditor-editor-gpui/src/image_loader.rs:277-293 | an eviction is determined by the policy, the entries and the limits |
| ImageCache.TransitionKeepsValid | crates/cditor-editor-gpui/src/image_loader.rs:187-371 | every operation keeps: byte counter equals the sum, loading and failed entries weigh 0, counter within budget, distinct stamps and load generations |
| ImageCache.RunsStayValid | crates/cditor-editor-gpui/src/image_loader.rs:187-371 | so this holds in every state of every run |
| ImageCache.AcceptedFinishFits | crates/cditor-editor-gpui/src/image_loader.rs:214-293 | after an accepted result the entry count is within the limit or every remaining entry is loading |
| ImageCache.AcceptedFinishEvictsOldest | crates/cditor-editor-gpui/src/image_loader.rs:277-293 | what an accepted result evicts is older than every surviving non-loading entry, and no other load is touched |
| ImageCache.AcceptedFinishEvictsExactly | crates/cditor-editor-gpui/src/image_loader.rs:214-293 | an entry goes after an accepted result if and only if it does not fit even without all older finished entries |
| ImageCache.ResultSurvivesExactly | crates/cditor-editor-gpui/src/image_loader.rs:214-293 | the accepted result itself stays if and only if its weight is within the byte budget and the loads, its own slot counted, are within the entry limit |
| ImageCache.AcceptedFinishWithRoom | crates/cditor-editor-gpui/src/image_loader.rs:214-245 | a result that fits evicts nothing |
| ImageCache.WarningSparesReady | crates/cditor-editor-gpui/src/image_loader.rs:310-361 | a warning pass evicts a ready image only when no failed entry remains, and never a load |
| ImageCache.WarningEvictsOldest | crates/cditor-editor-gpui/src/image_loader.rs:310-361 | among the failed and among the ready entries, a warning pass evicts the older ones |
| ImageCache.ReliefMeetsLimits | crates/cditor-editor-gpui/src/image_loader.rs:310-371 | normal and warning pressure end within the limits, halved under warning, or with loads alone; critical pressure ends empty; what stays is unchanged |
| ImageCache.LookupHits | crates/cditor-editor-gpui/src/image_loader.rs:187-192 | a cached source is answered with its own state; only its stamp changes, and becomes the newest |
| ImageCache.LookupRefusesExactly | crates/cditor-editor-gpui/src/image_loader.rs:193-200 | a lookup is refused if and only if the source is absent and loads take every slot; then nothing but the clock changes |
| ImageCache.LookupStarts | crates/cditor-editor-gpui/src/image_loader.rs:201-212 | a started load is the current one of its source, its generation and stamp above all earlier ones, the other entries unchanged |
| ImageCache.JustUsedGoesLast | crates/cditor-editor-gpui/src/image_loader.rs:187-293 | a trim takes an entry just looked up only after every other finished entry |
| ImageCache.AcceptedFinishStores | crates/cditor-editor-gpui/src/image_loader.rs:214-245 | an accepted result that stays is stored as it came with the newest stamp, and the other entries that stay are unchanged |
| ImageCache.ResultIsAnswered | crates/cditor-editor-gpui/src/image_loader.rs:187-371 | in every run, as long as an accepted result stays cached, a lookup of its source answers it |
| ImageCache.RetryStartsAgain | crates/cditor-editor-gpui/src/image_loader.rs:187-268 | a retry forgets a failed source alone; its next lookup starts a load if and only if the count is within the limit or some other entry is not loading |
| ImageCache.AbortSparesOthers | crates/cditor-editor-gpui/src/image_loader.rs:247-258 | an abort removes exactly its own load; a newer load of the source stays current |
| ImageCache.DeadStaysDead | crates/cditor-editor-gpui/src/image_loader.rs:187-258 | a generation once handed out and no longer current never becomes current again |
| ImageCache.LoadEnds | crates/cditor-editor-gpui/src/image_loader.rs:214-361 | a result, an abort or critical pressure ends the load |
| ImageCache.TakesEffectAtMostOnce | crates/cditor-editor-gpui/src/image_loader.rs:187-361 | in every run, after a load has ended, a result with its generation changes nothing |
| ImageCache.StartKeepsLimitExactly | crates/cditor-editor-gpui/src/image_loader.rs:187-212 | starting a load keeps the count within the limit if and only if there was room for one more |
| ImageCache.EntryCountUnbounded | crates/cditor-editor-gpui/src/image_loader.rs:187-212 | for every capacity, every budget and every n there is a run of a new cache with more than n entries |
| ImageCache.FailedFinishMayRetire | crates/cditor-editor-gpui/src/image_loader.rs:535-543 | for every capacity, and every image within the budget, a run of a new cache whose last step, an accepted failed result, takes the only cached image out |
| ImageCache.FailedFinishRetiresExactly | crates/cditor-editor-gpui/src/image_loader.rs:214-245 | a failed result retires something if and only if some cached image is held only by entries whose older finished entries are fewer than the excess of the count over the limit |
| ImageCache.FailedFinishEvictsExactly | crates/cditor-editor-gpui/src/image_loader.rs:277-293 | after a failed result a finished entry goes if and only if the older finished entries are fewer than the excess |
| ImageCache.DecodedImageCache.LookupOrStart | crates/cditor-editor-gpui/src/image_loader.rs:187-212 | on the entries before and after: a hit answers the state and stamps it newest, a refusal leaves the entries alone, a start adds the current load of a new generation; as the lookup transition |
| ImageCache.DecodedImageCache.Finish | crates/cditor-editor-gpui/src/image_loader.rs:214-245 | a finish transition; a stale result changes nothing, an accepted one is stored as it came if it stays, others that stay are unchanged; the retired list is duplicate-free and is (cached before plus incoming) minus cached after |
| ImageCache.DecodedImageCache.AbortStart | crates/cditor-editor-gpui/src/image_loader.rs:247-258 | the entries without this very load, if it is current, else the same |
| ImageCache.DecodedImageCache.RetryFailed | crates/cditor-editor-gpui/src/image_loader.rs:260-268 | the entries without the source, if it has failed, else the same |
| ImageCache.DecodedImageCache.TrimInto | crates/cditor-editor-gpui/src/image_loader.rs:277-293 | the loop is an eviction by the trim policy and keeps the retired list exact |
| ImageCache.DecodedImageCache.PushIfUncached | crates/cditor-editor-gpui/src/image_loader.rs:295-308 | a ready image is appended unless still cached or already listed |
| ImageCache.DecodedImageCache.ApplyMemoryPressure | crates/cditor-editor-gpui/src/image_loader.rs:310-371 | a pressure transition within its limits; retired exactly; the reported entries, bytes and invalidated loads are the differences |
| SvgCache.NewestSurvivesIffItFits | components/cditor-component/src/svg_icon.rs:166-198 | an inserted image survives the eviction if and only if it fits the byte budget on its own, and the limits hold afterwards |
| SvgCache.OlderGoFirst | components/cditor-component/src/svg_icon.rs:166-198 | what an eviction takes is older than what stays, and what stays is unchanged |
| SvgCache.ColoredSvgCache.Get | components/cditor-component/src/svg_icon.rs:159-164 | returns the cached image and makes the entry the newest |
| SvgCache.ColoredSvgCache.Insert | components/cditor-component/src/svg_icon.rs:166-198 | eviction after insertion, older keys first; retired exactly; the key stays, with its image, if and only if it fits |
| SvgCache.ColoredSvgCache.PushIfUncached | components/cditor-component/src/svg_icon.rs:200-210 | appended unless still cached or already listed |
| CanvasDocument.EditKeepsListedExactly | components/cditor-whiteboard-gpui/src/canvas.rs:133-200 | an edit keeps the z-order a duplicate-free listing of exactly the shape map's keys if and only if it is proper |
| CanvasDocument.GroupPlacement | components/cditor-whiteboard-gpui/src/canvas.rs:314-358 | for any ids with two members or more, the group takes the place of the frontmost member, members in z-order inside, if and only if every id names a shape once or no other shape stands below that member |
| CanvasDocument.UnknownIdSinksGroup | components/cditor-whiteboard-gpui/src/canvas.rs:311-358 | grouping the upper two of three shapes together with an id that names none puts the group below the third |
| CanvasDocument.GroupThenUngroup | components/cditor-whiteboard-gpui/src/canvas.rs:314-388 | for any ids with two members or more, the shape map is restored, members and non-members keep their relative orders, and the z-order is restored if and only if the members were contiguous and the group took the place of the frontmost |
| CanvasDocument.GroupingConserves | components/cditor-whiteboard-gpui/src/canvas.rs:314-358 | grouping conserves leaf shapes and adds exactly the group's id |
| CanvasDocument.UngroupingConserves | components/cditor-whiteboard-gpui/src/canvas.rs:362-388 | ungrouping conserves leaf shapes and removes exactly the group's id |
| CanvasDocument.EndMoves | components/cditor-whiteboard-gpui/src/canvas.rs:167-176 | a shape brought to the front ends last, one sent to the back first, and the order of the others stays |
| CanvasDocument.StepMoves | components/cditor-whiteboard-gpui/src/canvas.rs:180-200 | a step exchanges the shape with its neighbour above or below if and only if there is one, else changes nothing |
| CanvasDocument.StepMovesKeepOthers | components/cditor-whiteboard-gpui/src/canvas.rs:180-200 | a step keeps the order of the other shapes |
| CanvasDocument.RemovingKeepsOthers | components/cditor-whiteboard-gpui/src/canvas.rs:140-143 | a removed shape is gone from map and order; every other shape and its order stays |
| CanvasDocument.GroupingKeepsOthers | components/cditor-whiteboard-gpui/src/canvas.rs:314-358 | grouping leaves the order of the other shapes and these shapes alone |
| CanvasDocument.UngroupingReplaces | components/cditor-whiteboard-gpui/src/canvas.rs:362-388 | the children stand, unchanged and in order, where the group was |
| CanvasDocument.CanGroupExactly | components/cditor-whiteboard-gpui/src/canvas.rs:314-335 | ids can be grouped if and only if at least two different ones name shapes |
| CanvasDocument.FreshIsProper | components/cditor-whiteboard-gpui/src/canvas.rs:133-388 | with fresh ids for new shapes and existing ids for moves every edit is proper |
| CanvasDocument.FreshKeepsGood | components/cditor-whiteboard-gpui/src/canvas.rs:133-388 | such edits keep ids unique through nested groups |
| CanvasDocument.FreshRunsStayGood | components/cditor-whiteboard-gpui/src/canvas.rs:73-200 | over every run the document and every stored snapshot stay listed and unique |
| CanvasDocument.EveryRun | components/cditor-whiteboard-gpui/src/canvas.rs:53-120 | from a new document: history bounded by 50 in every run; in every fresh run the document and every stored snapshot list exactly their shapes and have ids unique through nested groups |
| CanvasDocument.UndoRedoMoveACursor | components/cditor-whiteboard-gpui/src/canvas.rs:88-120 | undo stack, current document and reversed redo stack together are unchanged by undo and redo |
| CanvasDocument.UndosThenRedos | components/cditor-whiteboard-gpui/src/canvas.rs:88-120 | k undos show the snapshot k back, and k redos restore the document, stacks included |
| CanvasDocument.UndoRestoresCheckpoint | components/cditor-whiteboard-gpui/src/canvas.rs:73-102 | undoing after a checkpoint and any change restores the document |
| CanvasDocument.HistoryStaysBounded | components/cditor-whiteboard-gpui/src/canvas.rs:73-120 | the two stacks together never exceed 50, though redo does not trim |
| CanvasDocument.Document.PushUndo | components/cditor-whiteboard-gpui/src/canvas.rs:73-84 | the current snapshot is on top of the undo stack, the oldest of 50 goes, and the redo stack is empty |
| CanvasDocument.Document.Undo | components/cditor-whiteboard-gpui/src/canvas.rs:88-102 | takes the top of the undo stack into the document and puts the old one on the redo stack; true if and only if there was one |
| CanvasDocument.Document.Redo | components/cditor-whiteboard-gpui/src/canvas.rs:106-120 | takes the top of the redo stack into the document and puts the old one on the undo stack; true if and only if there was one |
| CanvasDocument.Document.AddShape | components/cditor-whiteboard-gpui/src/canvas.rs:133-137 | the shape is in the map and on top of the old order |
| CanvasDocument.Document.RemoveShape | components/cditor-whiteboard-gpui/src/canvas.rs:140-143 | the shape is gone, every other one and its order stays; the result is the removed shape |
| CanvasDocument.Document.Clear | components/cditor-whiteboard-gpui/src/canvas.rs:146-149 | no shapes are left; the history stays |
| CanvasDocument.Document.BringToFront | components/cditor-whiteboard-gpui/src/canvas.rs:167-170 | the id is last and only there; the order of the others stays |
| CanvasDocument.Document.SendToBack | components/cditor-whiteboard-gpui/src/canvas.rs:173-176 | the id is first and only there; the order of the others stays |
| CanvasDocument.Document.BringForward | components/cditor-whiteboard-gpui/src/canvas.rs:180-188 | one place up and the others in order if and only if the id is below the top; true exactly then, else unchanged |
| CanvasDocument.Document.SendBackward | components/cditor-whiteboard-gpui/src/canvas.rs:192-200 | one place down and the others in order if and only if the id is above the bottom; true exactly then, else unchanged |
| CanvasDocument.Document.GroupShapes | components/cditor-whiteboard-gpui/src/canvas.rs:314-358 | the new state is the grouping edit; nothing happens with fewer than two members |
| CanvasDocument.Document.UngroupShape | components/cditor-whiteboard-gpui/src/canvas.rs:362-388 | the new state is the ungrouping edit, the result the children's ids in order |
| Utf8.ValidExactly | crates/cditor-ai/src/mock.rs:119-141 | the strings that are valid by the byte table are exactly the encodings of sequences of scalar values |
| Utf8.BoundarySplits | crates/cditor-ai/src/mock.rs:119-141 | cutting a valid string at a character boundary leaves two valid strings |
| Utf8.BoundaryExactly | crates/cditor-ai/src/mock.rs:119-141 | a place in a valid string is a character boundary if and only if what is before it is valid |
| Utf8.FloorBoundary | components/cditor-video/src/stderr.rs:88-106 | the last character boundary at or below an index |
| Utf8.Chunks | crates/cditor-ai/src/mock.rs:119-141 | for every valid text and limit: the chunks concatenate to it, each is non-empty valid UTF-8 within the limit or one character, and as long as the limit allows |
| Utf8.GreedyAppend | crates/cditor-ai/src/mock.rs:119-141 | pushing a longest next chunk keeps the list greedy and appends its bytes |
| Utf8.ChunkEnd | crates/cditor-ai/src/mock.rs:119-141 | the end of the next chunk: the last boundary within the limit, else the end of one character |
| LineReader.ReadBoundedLines | components/cditor-video/src/stderr.rs:20-71 | for every way of cutting the input into reads: the delivered lines are those of the whole input and show its text line by line; a stop at its first observed load, or a read error, leaves a prefix; at most one line per load; buffer and outputs within 4096 bytes |
| LineReader.ChunkingIrrelevant | components/cditor-video/src/stderr.rs:20-71 | any cutting of a text into non-empty chunks gives the reader the text |
| LineReader.LinesOfJoined | components/cditor-video/src/stderr.rs:20-71 | lines joined by line feeds split back into those lines, each bounded and without one retained carriage return, and the unfinished rest |
| LineReader.FinishLine | components/cditor-video/src/stderr.rs:73-86 | a text that fits is delivered as it is; a truncated line keeps a longest whole-character start of its text and ends in the dots; valid and at most 4096 bytes |
| LineReader.TruncateUtf8 | components/cditor-video/src/stderr.rs:88-106 | unchanged within the limit; above it the longest whole-character prefix that leaves room for the dots, then the dots (none if the limit is 3 or less) |
| LineReader.TruncatedFits | components/cditor-video/src/stderr.rs:88-106 | the truncation of a valid string is valid and within the limit, for every limit |
| LineReader.TruncatedIsCut | components/cditor-video/src/stderr.rs:88-106 | what fits stays; anything else becomes its longest whole-character prefix leaving room for the dots, with the dots unless the limit is 3 or less |
| LineReader.FinishedIsCut | components/cditor-video/src/stderr.rs:73-86 | a delivered line is that cut of its decoded text, dots appended first if it was truncated; a truncated line keeps a longest start of its text and ends in the dots |
| LineReader.AllLinesOfJoined | components/cditor-video/src/stderr.rs:20-71 | joined lines come back in full: each keeps its first 4096 bytes less one carriage return and is marked truncated if longer; an unfinished rest follows if there is one |
| LineReader.InputEnds | components/cditor-video/src/stderr.rs:20-71 | a read error or an empty read ends the input whatever would follow, and only the error is one |
| GroupAssembly.AssembleGroups | components/cditor-whiteboard-gpui/src/excalidraw.rs:198-235 | terminates because the longest path shrinks, and computes the specified forest: trees ordered by their first shape at every depth, all shapes kept, every group with two children or more |
| GroupAssembly.BucketMaxPath | components/cditor-whiteboard-gpui/src/excalidraw.rs:214-226 | the longest path of a gathered group is strictly shorter |
| GroupAssembly.LeavesConserved | components/cditor-whiteboard-gpui/src/excalidraw.rs:198-235 | the leaves are exactly the input shapes as a multiset |
| GroupAssembly.OrderPreserved | components/cditor-whiteboard-gpui/src/excalidraw.rs:198-235 | at every depth siblings stand in the order in which the first shape of each was given |
| GroupAssembly.ConvertedInOrder | components/cditor-whiteboard-gpui/src/excalidraw.rs:155-177 | the elements that convert are kept, in order |
| GroupAssembly.GroupsBranch | components/cditor-whiteboard-gpui/src/excalidraw.rs:226-232 | every group at every depth has at least two children |
| GroupAssembly.HierarchyPreserved | components/cditor-whiteboard-gpui/src/excalidraw.rs:198-235 | the groups of the forest, at every depth, are exactly the group classes of the input with at least two members |
| GroupAssembly.SameTreeIffSameOutermost | components/cditor-whiteboard-gpui/src/excalidraw.rs:198-235 | two inputs are in one top-level tree if and only if they share an outermost group id |
| GroupAssembly.Gather | components/cditor-whiteboard-gpui/src/excalidraw.rs:214-223 | collects, in order and peeled, exactly the unhandled entries of the group and marks them |
| GroupAssembly.ItemShapeFromElements | components/cditor-whiteboard-gpui/src/excalidraw.rs:155-177 | nothing exactly when nothing converts; otherwise one group around the assembled forest, in order and with all its leaves |
| SmartGuides.DetectSmartGuides | components/cditor-whiteboard-gpui/src/snap.rs:62-219 | per axis the first nearest candidate strictly within the threshold, or no move; spacing guides if and only if that candidate is a placement, standing in the gaps of an even row at the snapped position, with its chain; the alignment guides stand at an edge or the centre of the snapped box, span exactly the dragged box and another one, and carry their tick marks |
| SmartGuides.SnapIsNearestJustified | components/cditor-whiteboard-gpui/src/snap.rs:62-219 | the snapped position lines up with a box or is evenly spaced with two, and no such position is nearer; unsnapped, none is within the threshold |
| SmartGuides.CandidatesAreJustified | components/cditor-whiteboard-gpui/src/snap.rs:62-219 | the candidates searched are exactly the positions that line up with a box or are evenly spaced with two |
| SmartGuides.AllAlignmentsAlign | components/cditor-whiteboard-gpui/src/snap.rs:87-115 | the alignment candidates are exactly the positions with an edge or centre on a line with another box's |
| SmartGuides.PlacementsMakeRows | components/cditor-whiteboard-gpui/src/snap.rs:861-949 | the placements of a pair are exactly the positions that make three boxes in a row with equal gaps |
| SmartGuides.PlacementsSpace | components/cditor-whiteboard-gpui/src/snap.rs:833-949 | the pair search finds the same placements however the caller ordered the boxes |
| SmartGuides.ShapesHaveInside | components/cditor-whiteboard-gpui/src/snap.rs:67-68 | a box counts as a shape for spacing if and only if there is a point inside it |
| SmartGuides.OverlapsExactly | components/cditor-whiteboard-gpui/src/snap.rs:117-135 | a box is considered for spacing along an axis if and only if a line along that axis runs through it and the dragged box |
| SmartGuides.MovingKeepsSize | components/cditor-whiteboard-gpui/src/snap.rs:152-219 | the snapped box has the size and the other coordinate of the dragged one |
| SmartGuides.SpacingWinsExactly | components/cditor-whiteboard-gpui/src/snap.rs:62-219 | spacing decides if and only if some placement within the threshold is strictly nearer than every alignment |
| SmartGuides.AlignmentsInOrder | components/cditor-whiteboard-gpui/src/snap.rs:87-115 | which of equally near alignments is first: box by box, the edges and centre of the dragged box against those of the other |
| SmartGuides.PlacementsInOrder | components/cditor-whiteboard-gpui/src/snap.rs:861-949 | which of equally near placements of a pair is first: between, beyond, before |
| SmartGuides.DetectEqualSpacing | components/cditor-whiteboard-gpui/src/snap.rs:833-985 | the best distance threaded through the pair loops tracks the first nearest of everything seen; guides are drawn if and only if a placement is that nearest, the two defining ones marking the equal gaps |
| SmartGuides.TryAlignments | components/cditor-whiteboard-gpui/src/snap.rs:87-115 | the nine pairings with one box extend what is tracked by exactly their candidates |
| SmartGuides.TryPair | components/cditor-whiteboard-gpui/src/snap.rs:861-949 | the cases of one pair extend what is tracked by exactly their placements |
| SmartGuides.WalkChain | components/cditor-whiteboard-gpui/src/snap.rs:953-984 | the further guides are those of the two walks outwards from the pair, each step going to the next box whose gap is within 1 of the spacing |
| SmartGuides.WalkUnique | components/cditor-whiteboard-gpui/src/snap.rs:953-984 | each such walk is determined by the boxes, the spacing and its start |
| SmartGuides.ChainNearSpacing | components/cditor-whiteboard-gpui/src/snap.rs:953-984 | every further guide is within 1 of the spacing |
| SmartGuides.ChainFillsGaps | components/cditor-whiteboard-gpui/src/snap.rs:953-984 | every further guide fills the gap between two boxes at the lower of their centres across |
| SmartGuides.ApplySnaps | components/cditor-whiteboard-gpui/src/snap.rs:152-219 | each snapped coordinate moves and gets one alignment guide, at an edge or the centre of the snapped box, spanning it and another one, with its tick marks; the vertical axis sees the horizontal move |
| SmartGuides.CollectTicks | components/cditor-whiteboard-gpui/src/snap.rs:161-170 | the tick marks are the dragged box's own followed by those of every box, in order |
| SmartGuides.TicksMarkBoxesOnLine | components/cditor-whiteboard-gpui/src/snap.rs:161-170 | a coordinate is marked if and only if it is an edge or the centre of a box with an edge or centre within 0.1 of the guide |
| Base64.RoundTrip | components/cditor-whiteboard-gpui/src/sync.rs:117-180 | decoding the encoding of any bytes gives those bytes |
| Base64.Encode | components/cditor-whiteboard-gpui/src/sync.rs:153-180 | the text spells the data's bits padded with zeros to sextets, in the alphabet, with at most two pads and length 4*ceil(n/3) |
| Base64.EncodeChunk | components/cditor-whiteboard-gpui/src/sync.rs:158-177 | the same for one chunk of one to three bytes |
| Base64.Decode | components/cditor-whiteboard-gpui/src/sync.rs:117-150 | fails exactly on a foreign character after trimming pads; otherwise returns the whole bytes of the sextets' bits |
| Base64.PushSextet | components/cditor-whiteboard-gpui/src/sync.rs:141-147 | bits stay in order, the accumulator stays below 2^bits and never overflows 32 bits |
| Base64.EncodingUnique | components/cditor-whiteboard-gpui/src/sync.rs:153-180 | the encoding is determined by the data |
| Base64.DecodingUnique | components/cditor-whiteboard-gpui/src/sync.rs:117-150 | the decoding is determined by the text |
| Base64.EncodingInjective | components/cditor-whiteboard-gpui/src/sync.rs:153-180 | different data have different encodings |
| Base64.ReencodesExactly | components/cditor-whiteboard-gpui/src/sync.rs:117-180 | a decoded text is the encoding of its data if and only if it has whole quads, at most two pads and only zero bits after the last byte |
| Base64.LonePadDecodes | components/cditor-whiteboard-gpui/src/sync.rs:117-150 | a lone pad decodes to no bytes, and no data has it as its encoding |
| Base64.TablesInvert | components/cditor-whiteboard-gpui/src/sync.rs:118-154 | the decoder's table and the encoder's alphabet are inverse, and the pad is in neither |
| FrameRows.RenderImageFromOwnedFrame | components/cditor-video/src/renderer.rs:54-80 | never panics; an image exactly for a renderable layout, showing the frame whether it was unique or shared; otherwise the frame comes back with the error |
| FrameRows.RenderableConverts | components/cditor-video/src/types.rs:137-170 | an accepted layout passes every checked product, capacity and row of both conversions |
| FrameRows.RenderImageFromFrame | components/cditor-video/src/renderer.rs:28-35 | panics exactly on short unpadded data and on oversized padded frames; an image exactly when every row is inside the data and the pixels fit a buffer |
| FrameRows.FramesThatPanic | components/cditor-video/src/types.rs:172-214 | on a 64-bit target, a frame of one pixel that can be made, and two changes of its open fields that panic, one of each kind |
| FrameRows.ValidateFrameLayout | components/cditor-video/src/types.rs:137-170 | accepts exactly non-empty frames whose rows hold their pixels and whose data holds every row |
| FrameRows.Bgra | components/cditor-video/src/types.rs:31-47 | a frame exactly for a renderable layout |
| FrameRows.IntoTightBgraBytes | components/cditor-video/src/types.rs:53-74 | the rows without padding; short unpadded data comes back as it is; panics exactly on oversized padded frames |
| FrameRows.TightBgraBytes | components/cditor-video/src/types.rs:172-189 | the rows without padding; panics exactly on short unpadded data and on oversized padded frames |
| FrameRows.CompactBgraRows | components/cditor-video/src/types.rs:191-214 | the rows one after the other exactly when they are inside the data and fit a buffer; panics exactly when the product passes the check but is no buffer length |
| FrameRows.TightRowsAt | components/cditor-video/src/types.rs:191-214 | output[r*rowLen+c] == data[r*stride+c] |
| FrameRows.UnpaddedRows | components/cditor-video/src/types.rs:53-74 | without padding the fast path's prefix is what the row loop copies |
| FrameRows.ShownOnce | components/cditor-video/src/renderer.rs:54-80 | a frame determines the image that shows it |

## Left out

- 64-bit wrap-around of generations, clocks, serial numbers and counters: they are unbounded naturals; saturating byte counters are exact because image sizes and budgets are bounded.
- Memory orderings, lock poisoning and re-entrant wakers: steps are sequentially consistent, `will_wake` is equality of wakers, and a waker called under the lock does not call back.
- More than one future per token: there is one waiter, because the slot holds one waker.
- `String::from_utf8_lossy`: any function from bytes to valid UTF-8 stands for it in `LineReader`.
- Blocking, buffer sizes and interrupted reads of the line reader: a script of reads stands for the stream.
- Floating-point rounding in `snap.rs`: coordinates are reals.
- The horizontal and vertical spacing searches are one method over an axis, because their code is the same with the coordinates exchanged.
- SmartGuides.SnapIsNearestJustified: asks for boxes that are not inside out, because the pair search relies on sorting by the lower edge; the search itself is specified for all boxes in `SmartGuides.DetectSmartGuides`.
- The standard library's stable sort is an insertion sort, and hash-map iteration order is an arbitrary choice of key.
- `Arc` sharing is an id for images and a flag for frames; reference counts and GPU atlas removal are left out.
- `types.rs` on targets whose `usize` is below 32 bits, and the pixel-format check, since there is one format.
- `Group::ungroup` and shape geometry: a group returns its children unchanged and in order; a leaf is an opaque payload with an id.
- Mutable access to shapes through `get_shape_mut` and public fields of the document, hit tests, bounds and import or export.
- Conversion of Excalidraw elements to shapes: an element either converts to a leaf or does not.
- FrameRows.IntoTightBgraBytes: works on values; that the owned buffer is reused without a copy is not modelled, nor is running out of memory.
- The network loaders, image decoding, temporary files and worker permits around the image cache.
- Collaboration, rendering, FFmpeg, audio, AI providers, camera algebra, elbow routing, rotation and angle snapping: not part of this model.
