# A verified model of the Flutter host's stateful core

This project models, in Dafny, the parts of the Flutter host that keep state across calls and awaits, and proves
what they promise over every sequence of calls and every interleaving. `dafny verify dfyconfig.toml` checks all of it.

* **The relay** (`table.dfy`, `relay.dfy`, `relay_delivery.dfy`, `relay_accounting.dfy`, `relay_reads.dfy`,
  `relay_losses.dfy`, `relay_requests.dfy`, `relay_replies.dfy`, `relay_host.dfy`). Guest and host exchange HTTP
  requests, host calls, persistence requests, WebSocket traffic and approvals through one event queue with two consumers
  and handle-keyed slots. Every call runs under one mutex, so a call is a step on a state value; a run is any sequence
  of calls from a new relay. What each side is told is stated by the history of the run alone. `RelayHost` is the object
  behind the mutex, and each of its methods is proved to take the step of its name.
* **Incremental projection** (`frame.dfy`, `render.dfy`, `render_cells.dfy`, `render_state.dfy`). A frame is patched
  from dirty rows and must be what a full rebuild would give, cell by cell what the terminal reports. The native library
  is a grid with dirty flags and one promise: what it changes, it marks.
* **The PNG decoder** (`png_filter.dfy`, `png_standard.dfy`, `png.dfy`, `png_files.dfy`, `png_decoder.dfy`). The
  specification to invert is the encoder of sections 5.3, 9.2, 9.4 and 11.2.4 of the PNG Specification (Second Edition):
  filters, chunks and the header.
* **Output capture** (`output_capture.dfy`). A tee into four buffers, and a drain that puts the remainder back later.
* **The session** (`session.dfy`, `session_safety.dfy`, `session_ticks.dfy`, `session_restart.dfy`,
  `session_timer.dfy`, `session_guests.dfy`, `product_session.dfy`). Ticks, disposes and starts as tasks that are
  suspended at their awaits and resume in any order. Calls into the two native hosts go through wrappers, which throw
  once they are closed.
* **The image cache** (`image_cache.dfy`, `image_freshness.dfy`, `vt_image_cache.dfy`). Overlapping image syncs and a
  dispose that share images, each of which has to be disposed once, and each shown one of which has to be up to date.
* **Text and notebook** (`bytes.dfy`, `texts.dfy`, `boot_noise.dfy`, `newlines.dfy`, `env_blob.dfy`, `env_text.dfy`,
  `freeze.dfy`, `notebook.dfy`, `notebook_controller.dfy`). The boot-noise filter, the newline normaliser, the
  environment parser, the freeze policy and the notebook's timeline.

Where code and documentation differ, the model follows the code:

* `aos_vm_take_output` with no room is documented as a length query
  (`native/agentos_flutter_host/include/agentos_flutter_host.h:150`); the code drops what it counts
  (`OutputCapture.ZeroCapacityDrops`, and `ConservedStep` for the exact condition).
* `_flushBootCarry` is described as writing a held partial line, often the first prompt; no carry the filter can leave
  is ever written (`BootNoise.FlushNeverWrites`).
* `start` opens the session again without asking whether a tick or another dispose is still suspended. Such a tick
  meets a StateError, and the timer of the scrollback compression, which calls without a wrapper, may reach a freed
  terminal; `SessionRestart.RestartIsSafeIff` and `SessionTimer.ReopeningIsLiveIff` say exactly when neither can be.
* `start` does not look at `_closed` after the boot, nor at a guest that is there already.
  `SessionRestart.BootPaints`, `SessionGuests.BootedGuestCanBeFreedIff` and `NoGuestLostIff` say what follows.
* A row whose cells could not be read loses its dirty mark all the same (`Render.FailedReadIsNotRetried`).
* A sync that has to wait again after it replaced an image leaves the disposed image in the paint lists
  (`ImageCache.StalePaintIff`).
* `aos_vm_relay_next` takes the event off the queue before it looks at the buffer, so a short buffer loses it
  (`RelayHost.RelayHost.NextInto`, `RelayLosses.FramesConservedIff`). Delivery is counted where the event is popped.
* A persist request with an unknown operation leaves a slot behind that the host never hears of
  (`RelayLosses.PersistAnnouncedIff`).
* `start` gives the session its terminal only after the terminal's resize and the encoder's opening; if one of these
  throws, nobody closes the terminal (`SessionSafety.NoTerminalOrphanedIff`).

Where the source has an object, the model has a class beside the state value: `RelayHost`, `ProductSession`,
`VtImageCache` and `NotebookController` keep their history as a ghost sequence of steps, and `Valid()` says that the
object is what that history makes of a new one, so every theorem about runs is one about the object.

## Model

| member | source | states |
|---|---|---|
| `Table.KthHandle` | native/agentos_flutter_host/src/table.rs:22-36 | The handle of the k-th allocation on a new relay (from 0) is k mod (2^31 - 1) + 1: a positive i32 for ever |
| `Table.HandlesDistinct` | native/agentos_flutter_host/src/table.rs:29-36 | Any 2^31 - 1 consecutive allocations, across the wrap too, are pairwise distinct; the next one repeats |
| `Bytes.FindNulIsFirst` | native/agentos_flutter_host/src/relay.rs:444 | Where a host-call request's name ends, and an environment string: the first NUL, or the end |
| `Relay.FirstSidecar` | native/agentos_flutter_host/src/relay.rs:721-741 | The sidecar consumer takes the first sidecar event of the queue, or none if there is none |
| `Relay.Apply` | native/agentos_flutter_host/src/relay.rs:367-388 | No call moves a socket's read position out of its front message, so the unchecked subtraction of ws_recv is safe in every reachable state |
| `RelayDelivery.QueueLaw` | native/agentos_flutter_host/src/relay.rs:728-747 | Each call either removes and hands out exactly one event, the front one or the first sidecar one, or appends at most one at the back; the rest keep their order |
| `RelayDelivery.DeliveryInvariant` | native/agentos_flutter_host/src/relay.rs:728-747 | Over every run each pushed event is queued or delivered, never both and never twice, and only sidecar events overtake others |
| `RelayDelivery.DeliveriesAreLogged` | native/agentos_flutter_host/src/relay.rs:728-747 | The push numbers recorded as delivered denote what the consumers were handed, in order |
| `RelayDelivery.FifoPerClass` | native/agentos_flutter_host/src/relay.rs:721-747 | For the sidecar events, and for the others, delivered followed by queued is what was pushed, in push order, under any mix of the two consumers |
| `RelayDelivery.NothingLost` | native/agentos_flutter_host/src/relay.rs:728-747 | As multisets, delivered plus queued events are the pushed ones |
| `RelayDelivery.CallBeforeClose` | native/agentos_flutter_host/src/relay.rs:513-526 | A close is delivered only after the call it belongs to, whichever consumers took them, also for a second close and across handle wrap |
| `RelayDelivery.FlagInvariant` | native/agentos_flutter_host/src/relay.rs:712-719 | A live slot whose call event was delivered is marked dispatched |
| `RelayDelivery.UndispatchedIffQueued` | native/agentos_flutter_host/src/relay.rs:443-471 | While no started call reuses a queued handle, a live slot is undispatched exactly while its one call event is queued |
| `RelayDelivery.FlagsExactIff` | native/agentos_flutter_host/src/relay.rs:443-471 | All along a run each live slot is undispatched exactly while a call with its handle is queued, of which there is at most one, exactly if no started call reuses a queued handle |
| `RelayAccounting.WrapDoublesACall` | native/agentos_flutter_host/src/table.rs:29-36 | A run of 2^31 - 1 allocations after which the next call leaves two calls queued for one slot |
| `RelayDelivery.NextsEmptyTheQueue` | native/agentos_flutter_host/src/relay.rs:742-745 | As many calls of relay_next as there are events deliver them all, in order, and leave none |
| `RelayDelivery.NextSidecarsEmptyTheirClass` | native/agentos_flutter_host/src/relay.rs:734-741 | As many calls of relay_next_sidecar as there are sidecar events deliver these, in order, and leave the others as they were |
| `RelayAccounting.AccountingStep` | native/agentos_flutter_host/src/relay.rs:316-351 | One call keeps every live socket's byte counter equal to its queued bytes and within 256 KiB, exactly if it does not open a socket under a handle with bytes still queued |
| `RelayAccounting.AccountingOverRuns` | native/agentos_flutter_host/src/relay.rs:316-351 | The counters are right throughout a run exactly if no step of it opens a socket under such a handle |
| `RelayAccounting.NeverSaturates` | native/agentos_flutter_host/src/relay.rs:684-691 | While the counters are right the saturating subtraction on dispatch never saturates |
| `RelayAccounting.FewAllocationsAreFresh` | native/agentos_flutter_host/src/table.rs:29-36 | Within 2^31 - 1 allocations no socket and no host call reuses a handle that is still queued |
| `RelayAccounting.AccountingWithinTheMark` | native/agentos_flutter_host/src/relay.rs:390-395 | So within 2^31 - 1 allocations every live socket's counter is exact and never above the mark |
| `RelayAccounting.WrapBreaksAccounting` | native/agentos_flutter_host/src/relay.rs:316-327 | That bound is the best possible: a run of 2^31 - 1 allocations after which the next socket's counter is wrong |
| `RelayAccounting.AllocationCounter` | native/agentos_flutter_host/src/table.rs:29-36 | After any run the handle counter is that of as many allocations as the run made |
| `RelayAccounting.ReadyMeansRoom` | native/agentos_flutter_host/src/relay.rs:353-365 | ws_ready gives 1 exactly if the socket is gone, failed, or would take one more byte |
| `RelayReads.ReadStep` | native/agentos_flutter_host/src/relay.rs:290-308 | A read copies the next bytes of an answer, as many as the buffer takes, and moves past exactly those |
| `RelayReads.ReadsFollowTheAnswer` | native/agentos_flutter_host/src/relay.rs:490-511 | Over every run, for HTTP bodies, host-call results and persist results alike, what was read of the host's latest answer is everything before the read position |
| `RelayReads.MatchesMeans` | native/agentos_flutter_host/src/relay.rs:587-608 | The bytes read, then the unread tail, are the answer |
| `RelayReads.PollForesees` | native/agentos_flutter_host/src/relay.rs:473-488 | In every run a read gives bytes only after the host answered, and where a poll would not refuse |
| `RelayReads.ReceiveStep` | native/agentos_flutter_host/src/relay.rs:367-388 | A receive copies a piece of the front message only, and drops the message when it is used up |
| `RelayReads.ReceivesFollowThePushes` | native/agentos_flutter_host/src/relay.rs:998-1009 | Over every run the messages received, each glued from its reads, then the queued ones are the messages pushed, in order; no read spans two messages |
| `RelayReads.EmptyReceive` | native/agentos_flutter_host/src/relay.rs:377-387 | With room in the buffer, a receive of nothing means no message or an empty one, which it consumes |
| `RelayReads.DecidedAtMostOnce` | native/agentos_flutter_host/src/relay.rs:932-944 | Each approval request is decided at most once |
| `RelayLosses.FramesConservedIff` | native/agentos_flutter_host/src/relay.rs:749-787 | With any buffers: the events whose frames the host received, with those queued, are the pushed ones, exactly if every call that took an event had room for its frame; then it received what was delivered, in that order |
| `RelayLosses.PersistAnnouncedIff` | native/agentos_flutter_host/src/relay.rs:535-568 | All along a run the host was sent the request of each live persist slot, exactly if every well-formed request had a known operation |
| `RelayLosses.AnnouncementsArePushed` | native/agentos_flutter_host/src/relay.rs:543-567 | What was sent for a slot is among the events pushed, of which DeliveryInvariant says that they are queued or delivered |
| `RelayReplies.HandleSays` | native/agentos_flutter_host/src/table.rs:29-36 | Over every run, for all five kinds, a start that takes a handle returns the next one by count, an unknown persist operation gets -1 all the same, and any other start is refused and changes nothing |
| `RelayReplies.SlotsFollowTheHistory` | native/agentos_flutter_host/src/relay.rs:814-829 | In every run each HTTP, call and persist slot is there, waits, or holds an answer at a read position as the history says: started, answered last with this, read so far, closed |
| `RelayReplies.RespondSays` | native/agentos_flutter_host/src/relay.rs:856-870 | The host may answer exactly the slots there are, as often as it likes |
| `RelayReplies.PollSays` | native/agentos_flutter_host/src/relay.rs:272-288 | From the last answer of the host on, a poll gives -1 exactly if there is no slot or the answer was a failure; otherwise an HTTP poll copies and counts the head as far as there is room, a call or persist poll gives 1; before an answer it gives 0 |
| `RelayReplies.ReadSays` | native/agentos_flutter_host/src/relay.rs:290-308 | Likewise a read of any of the three kinds gives -1, 0, or the next bytes of the answer, as many as there is room for, and its code is their number |
| `RelayReplies.SocketsFollowTheHistory` | native/agentos_flutter_host/src/relay.rs:960-972 | In every run each socket is gone, connected, opened, failed or closed as the history says |
| `RelayReplies.SendSays` | native/agentos_flutter_host/src/relay.rs:329-351 | While no socket was opened under a stale handle, a send is taken exactly if the socket is open, has not failed, and the bytes queued for it stay within 256 KiB |
| `RelayReplies.RecvSays` | native/agentos_flutter_host/src/relay.rs:367-388 | A receive gives the next bytes of the next message pushed, as many as there is room for; it gives -1 if the socket is gone or has failed, and 0 without a message |
| `RelayReplies.HostSocketSays` | native/agentos_flutter_host/src/relay.rs:998-1009 | The host may open, fail and feed exactly the sockets there are; closing one that is gone is no error |
| `RelayReplies.DecisionSays` | native/agentos_flutter_host/src/relay.rs:932-944 | In every run whoever waits under a handle gets the decision the host gave for it; without a waiter it goes nowhere |
| `RelayReplies.CallIsOfItsClass` | native/agentos_flutter_host/src/relay.rs:443-471 | The event of a started call has its own handle, name and body, and is of the sidecar class exactly if the name is the sidecar's; only such calls are taken when only the sidecar is allowed |
| `RelayReplies.CloseIsOfItsCallsClass` | native/agentos_flutter_host/src/relay.rs:513-526 | In every run the close of a live call is of the class of that call, so the same consumer gets both |
| `RelayReplies.SidecarGetsItsClass` | native/agentos_flutter_host/src/relay.rs:734-741 | relay_next_sidecar gives no event of the other class |
| `RelayRequests.CallRequestParsed` | native/agentos_flutter_host/src/relay.rs:443-446 | A host-call request put together from a NUL-free name and any body is split into these again; one without a NUL is all name |
| `RelayRequests.EveryCallRequest` | native/agentos_flutter_host/src/relay.rs:443-446 | There are no other requests |
| `RelayRequests.PersistRequestParsed` | native/agentos_flutter_host/src/relay.rs:535-568 | A persist request put together from an operation, a key and a value is announced as that operation with its own key and value; an unknown operation is not announced |
| `RelayRequests.PersistMalformedIff` | native/agentos_flutter_host/src/relay.rs:535-542 | Exactly the bytes that are put together from no such parts are refused as malformed |
| `RelayHost.FillBuf` | native/agentos_flutter_host/src/buf.rs:23-37 | The buffer is filled only if all of the source fits; the length is reported either way |
| `RelayHost.RelayHost.AllocHandle` | native/agentos_flutter_host/src/table.rs:29-36 | Gives the handle and leaves the counter that KthHandle is about |
| `RelayHost.RelayHost.HttpRequest` | native/agentos_flutter_host/src/relay.rs:259-270 | Allocates, inserts a slot and queues the event |
| `RelayHost.RelayHost.HttpPoll` | native/agentos_flutter_host/src/relay.rs:272-288 | Refuses, waits, or copies the head; changes nothing |
| `RelayHost.RelayHost.HttpBody` | native/agentos_flutter_host/src/relay.rs:290-308 | Copies the next piece of the body into the front of the buffer and moves past it |
| `RelayHost.RelayHost.HttpClose` | native/agentos_flutter_host/src/relay.rs:310-314 | Removes the slot and nothing else |
| `RelayHost.RelayHost.WsConnect` | native/agentos_flutter_host/src/relay.rs:316-327 | Allocates, inserts a slot and queues the event |
| `RelayHost.RelayHost.WsSend` | native/agentos_flutter_host/src/relay.rs:329-351 | Refuses, or counts the bytes and queues the event |
| `RelayHost.RelayHost.WsReady` | native/agentos_flutter_host/src/relay.rs:353-365 | The readiness that ReadyMeansRoom is about |
| `RelayHost.RelayHost.WsRecv` | native/agentos_flutter_host/src/relay.rs:367-388 | Copies a piece of the front message and pops it when used up |
| `RelayHost.RelayHost.WsClose` | native/agentos_flutter_host/src/relay.rs:390-395 | Removes the slot and queues the close |
| `RelayHost.RelayHost.Approve` | native/agentos_flutter_host/src/relay.rs:409-425 | The part under the mutex: a handle, a waiting sender, an event |
| `RelayHost.RelayHost.CallStart` | native/agentos_flutter_host/src/relay.rs:443-471 | Splits the request at its first NUL, refuses other names when only the sidecar is allowed, and queues the call |
| `RelayHost.RelayHost.CallPoll` | native/agentos_flutter_host/src/relay.rs:473-488 | Refuses, waits, or is ready |
| `RelayHost.RelayHost.CallBody` | native/agentos_flutter_host/src/relay.rs:490-511 | Copies the next piece of the result and moves past it |
| `RelayHost.RelayHost.CallClose` | native/agentos_flutter_host/src/relay.rs:513-526 | Removes the slot and queues a close marked as its slot was |
| `RelayHost.RelayHost.PersistStart` | native/agentos_flutter_host/src/relay.rs:535-568 | Queues the event of a well-formed request; an unknown operation leaves its slot behind |
| `RelayHost.RelayHost.PersistPoll` | native/agentos_flutter_host/src/relay.rs:570-585 | Refuses, waits, or is ready |
| `RelayHost.RelayHost.PersistBody` | native/agentos_flutter_host/src/relay.rs:587-608 | Copies the next piece of the result and moves past it |
| `RelayHost.RelayHost.PersistClose` | native/agentos_flutter_host/src/relay.rs:610-614 | Removes the slot and nothing else |
| `RelayHost.RelayHost.DispatchEvent` | native/agentos_flutter_host/src/relay.rs:712-719 | Marks a call's slot, or gives back a send's bytes, and nothing else |
| `RelayHost.RelayHost.PopEvent` | native/agentos_flutter_host/src/relay.rs:728-747 | Removes and dispatches the front event, or the first sidecar event |
| `RelayHost.RelayHost.NextInto` | native/agentos_flutter_host/src/relay.rs:749-787 | Pops first; a buffer too small for the frame gets -1 and the event is gone |
| `RelayHost.RelayHost.HttpRespond` | native/agentos_flutter_host/src/relay.rs:814-829 | Answers the slot of the handle cast to i32 and resets its read position; refuses an unknown one; SlotsFollowTheHistory and PollSays say what the guest is then told |
| `RelayHost.RelayHost.CallRespond` | native/agentos_flutter_host/src/relay.rs:856-870 | The same for a host call, whose marks stay |
| `RelayHost.RelayHost.PersistRespond` | native/agentos_flutter_host/src/relay.rs:897-911 | The same for a persist request |
| `RelayHost.RelayHost.ApprovalRespond` | native/agentos_flutter_host/src/relay.rs:932-944 | Sends the decision to the waiting sender, if there is one, and forgets the sender |
| `RelayHost.RelayHost.WsOpen` | native/agentos_flutter_host/src/relay.rs:960-972 | Opens or fails the socket |
| `RelayHost.RelayHost.WsPush` | native/agentos_flutter_host/src/relay.rs:998-1009 | Queues a message for the guest |
| `RelayHost.RelayHost.WsHostClose` | native/agentos_flutter_host/src/relay.rs:1025-1034 | Closes a known socket; an unknown one is no error |
| `Render.SnapshotIsRebuild` | lib/vt/render.dart:154-268 | From a new native state and any frame held before, over any run of marked changes, resizes and snapshots that pass the last frame or none, whichever path is taken, the cells, colours and cursor are those of a full rebuild; SnapshotShowsTheScreen says what a rebuild shows |
| `RenderCells.ReadCellShows` | lib/vt/render.dart:287-392 | A cell has the reported text exactly where there are graphemes, the reported selection and style, and the reported colours, swapped exactly if inverse; a featureless one loses its text colour and underline colour and nothing else |
| `RenderCells.SnapshotShowsTheScreen` | lib/vt/render.dart:154-268 | In every snapshot of a run from a new native state, on every path and whatever reads fail, the cell at row y and column x shows what the library reports there, and is empty where it reports nothing, unless the row is stale |
| `RenderCells.NoneIsExcepted` | lib/vt/render.dart:208-239 | With all rows readable no row is stale |
| `RenderCells.SnapshotSaysWhatItDid` | lib/vt/render.dart:60-197 | Colours and cursor are the reported ones, with their defaults and a cursor position only where it is visible on screen; the frame's marks say whether it reused all cells, read the marked rows, or built all |
| `Render.ReadableRowsAreRight` | lib/vt/render.dart:208-239 | When reads may fail, every row that is not stale is still that of a full rebuild |
| `Render.FlagsCleared` | lib/vt/render.dart:243-251 | After a snapshot of a run no dirty flag is left set |
| `Render.DirtyRowsCoverChanges` | lib/vt/render.dart:191-241 | The rows a frame calls dirty cover all its differences from the frame it was patched from |
| `Render.RefreshForgetsOldMeta` | lib/vt/frame.dart:162-197 | Refreshing an old frame leaves nothing of its colours and cursor, even where the new value is null |
| `Render.OlderFrameIsRightIff` | lib/vt/render.dart:154-197 | Given any frame, also one older than the last, a snapshot shows a full rebuild's cells exactly if the rows it takes from that frame are right |
| `Render.KeptUntilMarked` | lib/vt/render.dart:200-206 | A row that is not marked keeps its cells over any further run that passes the last frame and does not mark it, so it is right then exactly if it was |
| `Render.FailedReadIsNotRetried` | lib/vt/render.dart:208-247 | A row that could not be read keeps the old row, or blanks after a rebuild, over any further run that does not mark it, and is right exactly if that is |
| `RenderStates.WriteRow` | lib/vt/render.dart:219-238 | The cell loops write the row cut to the width and padded with blanks, and nothing beside it |
| `RenderStates.RenderState.VisitRow` | lib/vt/render.dart:200-247 | One turn of the row loop: read if wanted and readable, then clear the flag |
| `RenderStates.RenderState.VisitRows` | lib/vt/render.dart:199-247 | The row loop leaves the projected rows, no row flag set, and the rows it found dirty |
| `RenderStates.RenderState.ProjectRenderState` | lib/vt/render.dart:154-268 | The loops compute the projection and clear the flags; the cells are a fresh list or the previous one, and no earlier list is written |
| `PngFilter.PaethNearest` | lib/vt/png.dart:205-213 | The predictor is the nearest of left, up and up-left, ties in that order |
| `PngFilter.FilterRowAt` | lib/vt/png.dart:170-193 | The encoder's filter byte by byte, by the decoder's predictors, which FilterRowIs ties to section 9.2 |
| `PngStandard.PaethIsNearest` | lib/vt/png.dart:205-213 | The predictor is that of section 9.4 of the PNG Specification: the nearest to left + up - up-left, the earlier of equally near ones |
| `PngStandard.FilterRowIs` | lib/vt/png.dart:170-193 | Without the predictors of the code: each filtered byte is x, x - left, x - up, x - (left + up) / 2 rounded down, or x minus the nearest neighbour, modulo 256, as section 9.2 of the PNG Specification has it for filter types 0 to 4 |
| `PngStandard.ReconstructIs` | lib/vt/png.dart:170-193 | What the decoder reconstructs filters, by the same formulas, to what it was given |
| `PngStandard.StreamIsFiltered` | lib/vt/png.dart:157-203 | In the stream whose decoding gives the raw image row y stands behind its filter type, and byte x of it is filtered with the bytes of the raw image to its left, above it and above that, 0 outside of the image |
| `PngFilter.ReconstructFiltered` | lib/vt/png.dart:157-203 | Reconstructing a filtered row gives the row, for each filter and any bytes per pixel |
| `PngFilter.FilterReconstructed` | lib/vt/png.dart:157-203 | Filtering a reconstructed row gives the filtered row |
| `PngFilter.UnfilterFiltered` | lib/vt/png.dart:157-203 | Unfiltering what an encoder wrote, any filter type per row, gives the raw image |
| `PngFilter.FilterUnfiltered` | lib/vt/png.dart:157-203 | Filtering an unfiltered stream with the types it came with gives the stream back |
| `PngFilter.UnfilterFails` | lib/vt/png.dart:194-195 | Unfiltering fails exactly if some row's type is above 4 |
| `Png.DecodedSize` | lib/vt/png.dart:109-133 | Every successful decode has width and height from 1 to 65536 and exactly width * height * 4 bytes |
| `Png.WalkFile` | lib/vt/png.dart:53-107 | Walking a file's bytes is interpreting its chunks one by one; what follows matters only while there was no IEND |
| `Png.ResplitIdats` | lib/vt/png.dart:96-100 | Cutting the compressed stream differently over IDAT chunks changes nothing |
| `Png.InsertUnknown` | lib/vt/png.dart:103-105 | Unknown chunks at any chunk boundary change nothing |
| `Png.DecodeInvariant` | lib/vt/png.dart:53-133 | Two complete files whose chunks are interpreted alike decode alike, whatever stands after their ends; so by ResplitIdats and InsertUnknown the IDAT split and unknown chunks are not seen |
| `Png.ChecksumsDoNotMatter` | lib/vt/png.dart:53-107 | Files with the same kinds and data of chunks decode alike, whatever the checksums |
| `Png.TruncatedIff` | lib/vt/png.dart:53-107 | The walk gets through exactly the bytes made of chunks up to where it stops, at an error, after IEND, or with less than 12 bytes left; all others are cut-off files |
| `Png.ParseHeaderBytes` | lib/vt/png.dart:66-95 | The header an encoder writes passes all checks and is read back |
| `Png.DecodeEncoded` | lib/vt/png.dart:28-133 | Decoding what an encoder writes gives its raw image as RGBA, for any filter types and any cut, if inflate undoes the compression |
| `PngStandard.HighestFirst` | lib/vt/png.dart:135-140 | The numbers of chunks and header are four bytes, the highest first |
| `PngStandard.ImagePixels` | lib/vt/png.dart:215-251 | Pixel i of a decoded image is made of samples i of the raw one: gray thrice and opaque, RGB and opaque, gray thrice with alpha, or RGBA |
| `PngFiles.ParseHeaderIff` | lib/vt/png.dart:66-95 | Header data is read as a header exactly if its first 13 bytes are what an encoder writes for it: 1 to 65536 wide and high, 8 bits, a colour type of 0, 2, 4 or 6, and methods 0 |
| `PngFiles.DecodeIff` | lib/vt/png.dart:28-133 | For every file and every inflate: the decode succeeds with an image exactly if the file is the signature, chunks with one header before the image data, an end and anything behind it, and the image data inflates to the filtered rows of that image, for some filter types, with anything behind them |
| `PngDecoder.UnfilterSub` | lib/vt/png.dart:173-177 | The loop computes the reconstruction of filter 1 |
| `PngDecoder.UnfilterUp` | lib/vt/png.dart:178-181 | The loop computes the reconstruction of filter 2 |
| `PngDecoder.UnfilterAverage` | lib/vt/png.dart:182-186 | The loop computes the reconstruction of filter 3, which ReconstructIs says rounds down |
| `PngDecoder.UnfilterPaeth` | lib/vt/png.dart:187-193 | The loop computes the reconstruction of filter 4 |
| `PngDecoder.Unfilter` | lib/vt/png.dart:157-203 | The row loop computes the unfiltered image, or fails as it does, with all indices in bounds |
| `PngDecoder.FillRows` | lib/vt/png.dart:164-201 | Its row loop, one row after the other |
| `PngDecoder.ToRgba` | lib/vt/png.dart:215-251 | The loops expand each colour type to RGBA |
| `PngDecoder.DecodePng` | lib/vt/png.dart:28-133 | The chunk loop terminates on every input and computes the decode that the theorems are about |
| `OutputCapture.FallbackIsEmpty` | native/agentos_flutter_host/src/tty.rs:109-114 | Where the stream buffers hold no more than the combined one got, the fallback contributes no byte |
| `OutputCapture.CoveredOverRuns` | native/agentos_flutter_host/src/boot.rs:64-72 | That holds in every run |
| `OutputCapture.StreamsFollowTheWrites` | native/agentos_flutter_host/src/boot.rs:64-72 | In every run each stream's buffer holds what was written to that stream since the last take, in order |
| `OutputCapture.FallbackInOrder` | native/agentos_flutter_host/src/tty.rs:109-114 | A take that finds nothing in the combined buffer would give stdout, stderr and the log, in this order |
| `OutputCapture.ConservedStep` | native/agentos_flutter_host/src/tty.rs:104-146 | A step keeps returned-then-pending equal to written exactly if it is not a take with no room of pending bytes |
| `OutputCapture.OutputConserved` | native/agentos_flutter_host/src/tty.rs:104-146 | For one consumer with room in every take, what it was handed followed by what is pending is all that was written, in order, also when writes land before the put-back |
| `OutputCapture.ZeroCapacityDrops` | native/agentos_flutter_host/src/tty.rs:122-125 | A take with no room drops what it counts |
| `OutputCapture.DrainInsideWriteIsSafeIff` | native/agentos_flutter_host/src/boot.rs:64-72 | Why no take may run in the middle of a write: what it would get and what is left for the next one make up the write, exactly if the write did not fit; one that fits would be given twice |
| `OutputCapture.Buffers.TeeCombined` | native/agentos_flutter_host/src/boot.rs:66-70 | The first append of a write |
| `OutputCapture.Buffers.TeeStream` | native/agentos_flutter_host/src/boot.rs:66-70 | The second append of a write |
| `OutputCapture.Buffers.TakeOutput` | native/agentos_flutter_host/src/tty.rs:106-131 | Empties the four buffers, fills the caller's and says what to put back |
| `OutputCapture.Buffers.SpliceBack` | native/agentos_flutter_host/src/tty.rs:131-137 | Puts the remainder in front of what was written meanwhile |
| `SessionSafety.OneTickAndOneReleasePerStart` | lib/session/product_session.dart:809-853 | In every run at most one tick is active and native hosts are released at most once per start; a terminal ever opened was freed once, unless it is the session's own or its opening broke off, and else not at all; no guest is freed twice |
| `SessionSafety.NoTerminalOrphanedIff` | lib/session/product_session.dart:138-143 | After a run every terminal opened is the session's or was freed, exactly if no start of it failed between opening its terminal and handing it to the session |
| `SessionSafety.OrphanedForever` | lib/session/product_session.dart:809-853 | A terminal left behind so is never the session's and never freed, whatever follows |
| `SessionSafety.LifetimeInvariant` | lib/session/product_session.dart:190-196 | The ticking flag says whether a tick is suspended, and is what a completer waits for; at most one start is about to reopen, and only while the session is closed and, after its wait, released |
| `SessionSafety.ClosedTickEnds` | lib/session/product_session.dart:190-326 | A tick that resumes in a closed session ends there, whatever it waited for and whatever it is told, calls no host, and completes the waiting dispose |
| `SessionSafety.ClosedStaysInert` | lib/session/product_session.dart:328-331 | Once closed with no start about to reopen, over any run it stays closed, no tick calls a host again and no new tick begins |
| `SessionSafety.WrappersGuardTheirHosts` | lib/vt/terminal.dart:589-591 | Helper of the theorems on refused calls: the model closes a wrapper and frees its host together, so in every run a wrapper lets a call through exactly if its host was not freed |
| `SessionTicks.OnlyWaitsReleaseUnderTicks` | lib/session/product_session.dart:867-878 | While a tick is suspended no step but the end of a wait releases or frees anything, a dispose least of all |
| `SessionTicks.ReleasesUnderTicksHaveWaited` | lib/session/product_session.dart:785-806 | In every run whatever releases the hosts under a suspended tick is a dispose or start that has waited |
| `SessionTicks.DisposeReleasesIff` | lib/session/product_session.dart:856-882 | dispose closes the session and stops the timer; it frees the hosts at once exactly if no tick is suspended, and otherwise leaves them alone and waits for that tick |
| `SessionTicks.DisposeAsyncWaits` | lib/session/product_session.dart:753-771 | disposeAsync closes the session too, leaves the hosts alone, and frees them when its wait ends |
| `SessionTicks.NobodyWaitsInVain` | lib/session/product_session.dart:785-806 | In every run, whenever no tick is suspended, every waiting dispose and start may go on without a timeout |
| `SessionTicks.SegmentsFollowTheScript` | lib/session/product_session.dart:197-316 | Between two awaits a tick makes exactly the calls of its script, in that order and only those what it saw asks for, and ends at a refused needed call; in a closed session, or after a failed write or tick of the guest, it makes none |
| `SessionTicks.TickBeginsIff` | lib/session/product_session.dart:190-205 | A tick begins exactly if the session is open, no tick is suspended, and there are a terminal and a guest that is not shut; it begins with the pending input, if there is any, for these hosts |
| `SessionRestart.CalmTicksAreNotRefused` | lib/session/product_session.dart:190-326 | In every run whose starts reopen where that is clear no tick meets the StateError of a closed wrapper, also when the idle wait timed out |
| `SessionRestart.PatientReleaseFindsNoTick` | lib/session/product_session.dart:785-806 | In such a run a release whose wait did not time out finds no tick suspended |
| `SessionRestart.RestartIsSafeIff` | lib/session/product_session.dart:117-148 | Reopening, whatever becomes of the opening, leaves every later tick free of that error, in all that may follow with clear later restarts, exactly if a suspended tick has only its image sync left and, where the opening works, nobody waits to release |
| `SessionRestart.StaleTick` | lib/session/product_session.dart:190-316 | A tick that outlives its terminal in an open session is refused a call, whatever it is waiting for |
| `SessionRestart.LateRelease` | lib/session/product_session.dart:866-878 | A dispose still waiting when start reopens takes the new hosts away under a tick, which is refused then |
| `SessionRestart.BootPaints` | lib/session/product_session.dart:153-187 | After the boot start paints its own terminal exactly if that still is the session's; otherwise the call is refused and the error goes to the session's terminal of that moment, if it has one, as does that of a failed boot |
| `SessionTimer.UnhurriedRunsCallLiveHosts` | lib/vt/compress.dart:40-70 | In every run in which no start opens hosts while a dispose is waiting, no call at all goes to a freed host, the unguarded one of the idle timer included |
| `SessionTimer.ReopeningIsLiveIff` | lib/vt/compress.dart:40-86 | Reopening leaves the idle timer no chance to reach a freed terminal, in all that may follow without a start that opens hosts while a dispose waits, exactly if nobody waits to release or the opening fails |
| `SessionTimer.TimerGoesOnIff` | lib/vt/compress.dart:45-70 | The timer makes one call, with the terminal it was armed for, and is armed again exactly if work is left |
| `SessionTimer.TickArmsIff` | lib/vt/compress.dart:24-43 | A tick arms it for its terminal exactly if, in an open session, it wrote text there that changed the activity |
| `SessionGuests.BootedGuestCanBeFreedIff` | lib/session/product_session.dart:153-158 | Some run frees a guest that has just booted, exactly unless the session was closed and released for good before |
| `SessionGuests.LostStep` | lib/session/product_session.dart:158-158 | A step loses the guest it boots over, and no other; what was lost stays so |
| `SessionGuests.LostForever` | lib/session/product_session.dart:809-853 | A guest that is neither freed nor the session's is never freed |
| `SessionGuests.NoGuestLostIff` | lib/session/product_session.dart:153-158 | After a run every guest booted is freed or the session's, exactly if no guest of it booted where the session had one |
| `SessionGuests.OverlappingStartsLoseAGuest` | lib/session/product_session.dart:114-162 | Whenever start is called again while an earlier one waits for its guest, some run of the open session loses that guest and paints the earlier start's error on the later one's terminal |
| `SessionGuests.SomeCalmRunLosesAGuest` | lib/session/product_session.dart:104-169 | Such a run there is from a new session, and its restarts are clear |
| `ProductSessions.ProductSession.TickOnce` | lib/session/product_session.dart:190-205 | Takes the step TickFires: the guards, and the first call into the guest |
| `ProductSessions.ProductSession.ResumeTick` | lib/session/product_session.dart:197-325 | Takes the step TickResumes: from one await to the next, or through the finally block, refusals included |
| `ProductSessions.ProductSession.AwaitIdle` | lib/session/product_session.dart:785-806 | Shares the completer of an earlier wait, or makes one while a tick is active |
| `ProductSessions.ProductSession.ReleaseNative` | lib/session/product_session.dart:809-853 | Closes the wrappers once, and with them frees the hosts, and drops the references |
| `ProductSessions.ProductSession.DisposeAsync` | lib/session/product_session.dart:753-767 | Takes the step CallDisposeAsync: closes, then waits |
| `ProductSessions.ProductSession.EndWait` | lib/session/product_session.dart:767-770 | Takes the step WaitEnds: releases, and lets a start go on |
| `ProductSessions.ProductSession.Dispose` | lib/session/product_session.dart:856-882 | Takes the step CallDispose: closes, and releases at once exactly if no tick is active (DisposeReleasesIff) |
| `ProductSessions.ProductSession.Start` | lib/session/product_session.dart:104-117 | Takes the step CallStart: throws on a closed session |
| `ProductSessions.ProductSession.Reopen` | lib/session/product_session.dart:119-149 | Takes the step StartReopens, with each of its outcomes: opens the session without a look at ticks and waits, and has a terminal, loses one, or opens none |
| `ProductSessions.ProductSession.GuestBooted` | lib/session/product_session.dart:153-187 | Takes the step GuestBoots: takes the guest and paints, or paints the error |
| `ProductSessions.ProductSession.TimerFired` | lib/vt/compress.dart:45-70 | Takes the step TimerFires: one call without a wrapper |
| `ImageCache.CacheInvariant` | lib/vt/image_cache.dart:23-79 | Over any interleaving each image is exactly one of in flight, cached or disposed, and disposed at most once; while the newest sync is not suspended the paint lists name cached images only, split by the sign of z |
| `ImageCache.SupersededSyncIsInert` | lib/vt/image_cache.dart:38-41 | A superseded sync that resumes leaves the cache alone and disposes the image it was handed |
| `ImageCache.NoLeakAfterDispose` | lib/vt/image_cache.dart:104-113 | Whatever syncs are in flight when the cache is disposed, once they have all ended and none was begun since, every image ever made has been disposed exactly once |
| `ImageCache.StalePaintIff` | lib/vt/image_cache.dart:42-47 | An image that is painted, on either side of the text, and then replaced stays in that list, disposed, exactly if the sync has to wait for another layer |
| `ImageCache.PaintSideComplete` | lib/vt/image_cache.dart:60-76 | Each visible cached layer is painted, on the side its z says |
| `ImageCache.PaintSideLive` | lib/vt/image_cache.dart:60-76 | Nothing else is |
| `ImageCache.NextMiss` | lib/vt/image_cache.dart:32-37 | The first layer that is not up to date; those before it are; LatestIsCached says what that comes to, generations included |
| `ImageFreshness.LatestIsCached` | lib/vt/image_cache.dart:32-47 | In every run, whenever the newest sync is not suspended, each of its layers that the decoder did not fail for has an image cached that was made for its own key and its own generation, where no later layer has the same key |
| `ImageFreshness.OnlyFailuresAreMissing` | lib/vt/image_cache.dart:38-41 | In every run the layers noted as missing, and those of syncs about to resume without an image, are layers a step of the run failed to decode |
| `ImageFreshness.NothingElseIsCached` | lib/vt/image_cache.dart:50-56 | And the cache then holds images of that sync's layers only, each under the key it was made for |
| `ImageFreshness.LatestIsPainted` | lib/vt/image_cache.dart:58-78 | Each side of the text then shows that sync's layers that are visible and cached, and have a z of that side, with their images and in their order |
| `ImageFreshness.PaintsInOrder` | lib/vt/image_cache.dart:60-76 | A paint list is the entries of the layers one after the other |
| `VtImageCaches.VtImageCache.FindMiss` | lib/vt/image_cache.dart:32-37 | The loop of sync up to its next await finds the layer NextMiss is about |
| `VtImageCaches.VtImageCache.Sync` | lib/vt/image_cache.dart:23-37 | Takes the step Sync: a new token, then on to the first await or to the end |
| `VtImageCaches.VtImageCache.Answer` | lib/vt/image_cache.dart:118-137 | Takes the step Decode: the decoder answers one suspended sync, with an image or without |
| `VtImageCaches.VtImageCache.Resumes` | lib/vt/image_cache.dart:37-79 | Takes the step Wake: from the await to the next one, to the end, or out when superseded |
| `VtImageCaches.VtImageCache.TakeDecoded` | lib/vt/image_cache.dart:38-46 | After the await: give back, or store and dispose the replaced one; a new image keeps each image under one key |
| `VtImageCaches.VtImageCache.DropUnneeded` | lib/vt/image_cache.dart:50-56 | The loop keeps exactly the needed images and disposes each other once |
| `VtImageCaches.VtImageCache.RebuildPaints` | lib/vt/image_cache.dart:58-78 | The loop builds the two paint lists |
| `VtImageCaches.VtImageCache.FinishSync` | lib/vt/image_cache.dart:50-79 | The end of sync |
| `VtImageCaches.VtImageCache.Dispose` | lib/vt/image_cache.dart:104-113 | Takes the step DisposeCache: disposes all images once, forgets them and supersedes every sync |
| `BootNoise.StripLines` | lib/session/product_session.dart:428-455 | However a text is made of lines and a last part, the banner lines are dropped and all else is kept in order; the last part is held or given out |
| `BootNoise.TextIsLines` | lib/session/product_session.dart:433-441 | Every text is made of lines and a last part |
| `BootNoise.NoiseIff` | lib/session/product_session.dart:402-410 | Exactly the lines are banners that begin with one of the heads, but for white space before it |
| `BootNoise.HeldIff` | lib/session/product_session.dart:413-426 | Exactly the partial lines are held that are six characters or more of a head, but for white space before them |
| `BootNoise.CarryIsHeld` | lib/session/product_session.dart:442-451 | The carry is empty, or a newline-free beginning of a banner of six trimmed characters or more |
| `BootNoise.SeamlessIff` | lib/session/product_session.dart:428-455 | Filtering in two chunks is filtering at once, for all that may follow, exactly if the first ends at a line end or within a held beginning |
| `BootNoise.ChunkIndependence` | lib/session/product_session.dart:428-455 | If every chunk but the last ends so, the chunks give what the joined text gives |
| `BootNoise.FeedMakesNothingUp` | lib/session/product_session.dart:428-455 | Wherever the chunks end, what is given out, and the carry behind it, is a subsequence of the joined text |
| `BootNoise.FlushNeverWrites` | lib/session/product_session.dart:457-474 | The flush never writes a carry the filter left |
| `BootNoise.IsBootNoiseLine` | lib/session/product_session.dart:402-410 | The checks in order find a banner line |
| `BootNoise.IsIncompleteBootPrefix` | lib/session/product_session.dart:413-426 | The loop over the heads finds a beginning of a banner |
| `BootNoise.BootFilter.StripBootNoise` | lib/session/product_session.dart:428-455 | The loop computes the filter and leaves its carry |
| `BootNoise.BootFilter.FlushBootCarry` | lib/session/product_session.dart:457-474 | Empties the carry |
| `Newlines.NormalizeNewlines` | lib/vt/terminal.dart:441-451 | The loop computes the normal form |
| `Newlines.Idempotent` | lib/vt/terminal.dart:441-451 | Normalising twice is normalising once |
| `Newlines.NormalizedHasNoLone` | lib/vt/terminal.dart:441-451 | Afterwards each line feed has a carriage return before it |
| `Newlines.FixedIff` | lib/vt/terminal.dart:444-446 | A text is left alone exactly if it has no lone line feed |
| `Newlines.AddsOnlyReturns` | lib/vt/terminal.dart:443-449 | Only carriage returns before line feeds are added, one for each lone line feed |
| `Newlines.DistributesIff` | lib/vt/terminal.dart:441-451 | Two parts may be normalised apart exactly if the first does not end in CR with the second beginning with LF |
| `EnvBlob.ParseEnvBlob` | native/agentos_flutter_host/src/buf.rs:88-117 | The loop terminates on every input and computes the parse, errors included |
| `EnvBlob.ParsePrinted` | native/agentos_flutter_host/src/buf.rs:88-117 | Parsing the printed form of any NUL-free UTF-8 pairs gives them back |
| `EnvBlob.PrintParsed` | native/agentos_flutter_host/src/buf.rs:88-117 | Printing a successful parse gives the exact blob, and its strings are NUL-free UTF-8 |
| `EnvBlob.ParsesIffPrinted` | native/agentos_flutter_host/src/buf.rs:88-117 | Exactly the printed forms are parsed |
| `EnvText.Utf8Iff` | native/agentos_flutter_host/src/buf.rs:88-117 | Exactly the encodings of Unicode scalar values are accepted as strings, as section 3 of RFC 3629 defines them |
| `EnvText.ParseFailsIff` | native/agentos_flutter_host/src/buf.rs:88-117 | The parse fails with an error exactly if the blob is some good pairs and then something that is wrong in that way |
| `Freeze.ApplyKeepsWork` | lib/notebook/freeze_policy.dart:74-106 | A frozen frame is a complete prefix of rows without a cursor, and only blank or bare-prompt rows are dropped |
| `Freeze.FrozenLooks` | lib/notebook/freeze_policy.dart:74-106 | A frozen frame keeps the colours and the cursor style, blinks no more, and counts as all dirty |
| `Freeze.FrozenEnds` | lib/notebook/freeze_policy.dart:48-54 | It ends in a row that is no bare prompt, unless it is a single row |
| `Freeze.RowTextIs` | lib/notebook/freeze_policy.dart:14-23 | A row's text is its cells' texts one after the other, but for white space at the end |
| `Freeze.BarePromptIff` | lib/notebook/freeze_policy.dart:25-30 | Exactly the rows are bare prompts whose text is up to three prompt characters, or none, between white space |
| `Freeze.ApplyIdempotent` | lib/notebook/freeze_policy.dart:74-106 | Freezing twice is freezing once |
| `Freeze.WorthIff` | lib/notebook/freeze_policy.dart:59-71 | A frame is worth freezing exactly if it has a row that is neither blank nor a bare prompt |
| `Freeze.WorthUnchanged` | lib/notebook/freeze_policy.dart:56-106 | Freezing does not change whether a frame is worth it |
| `Freeze.UsedRowsUpTo` | lib/notebook/freeze_policy.dart:32-46 | One more than the last row with ink |
| `Freeze.ReadRowText` | lib/notebook/freeze_policy.dart:14-23 | The loop joins a row's texts and drops trailing white space |
| `Freeze.CountUsedRows` | lib/notebook/freeze_policy.dart:32-46 | The loops find the last row with ink |
| `Freeze.CountRowsForFreeze` | lib/notebook/freeze_policy.dart:48-54 | The loop drops trailing bare prompts, but for the first row |
| `Freeze.CheckWorthFreezing` | lib/notebook/freeze_policy.dart:59-71 | The loop decides the worth that WorthIff is about |
| `Freeze.ApplyFreeze` | lib/notebook/freeze_policy.dart:74-106 | The frozen frame, padded by the loop where cells are short |
| `Notebook.TimelineInvariant` | lib/notebook/controller.dart:22-107 | Over every run each message is followed by its turn, each freeze shows work, and revision = freezes + messages while length = freezes + 2 * messages; TimelineFollows says what is in them |
| `Notebook.TimelineFollows` | lib/notebook/controller.dart:34-96 | What each call of a run appends: entering ask mode with a terminal that has work a freeze of it, sending a message its trimmed text and a turn, each with the next number in its id, and all other calls nothing; the revision counts the calls that appended |
| `Notebook.DocumentFollows` | lib/notebook/controller.dart:22-107 | In every run mode, flash and palette are as the history says |
| `Notebook.DecimalSays` | lib/notebook/controller.dart:40-81 | The numbers in the ids are their decimal digits, without a leading zero |
| `Notebook.IdsAreDistinct` | lib/notebook/controller.dart:40-81 | No two cells of a run have the same id |
| `Notebook.TimelineGrows` | lib/notebook/controller.dart:22-107 | The timeline only grows, and only at its end |
| `Notebook.FreezesIff` | lib/notebook/controller.dart:34-57 | Entering ask mode appends a cell exactly if a terminal is shown that has a row of real work |
| `NotebookControllers.NotebookController.EnterAsk` | lib/notebook/controller.dart:34-57 | The new document, and whether a freeze was appended |
| `NotebookControllers.NotebookController.SubmitUserMessage` | lib/notebook/controller.dart:69-96 | The message and its turn, or the flash for an empty one |
| `NotebookControllers.NotebookController.SetMode` | lib/notebook/controller.dart:22-29 | The mode, and no flash if it changed |
| `NotebookControllers.NotebookController.EnterTerminal` | lib/notebook/controller.dart:59-61 | Sets the terminal mode and nothing else |
| `NotebookControllers.NotebookController.SetPaletteOpen` | lib/notebook/controller.dart:63-67 | The palette and nothing else |
| `NotebookControllers.NotebookController.ClearStatusFlash` | lib/notebook/controller.dart:98-102 | No flash, and nothing else changed |

## Left out

- Foreign code is not part of this model: the kernel host, the real network stack and its connection registry, the
  frame encoder of the control protocol, the JSON reader, the terminal library and zlib. The encoder and inflate are
  arbitrary functions, the terminal library is its dirty-mark promise.
- Addresses, struct layout, null arguments and error strings of the C interface; a null buffer is a buffer of length 0.
- Poisoned locks, and the vm argument: there is one vm and its locks are always taken.
- RelayHost.RelayHost.Approve: the caller then blocks for the decision; that it is woken, and that every other outcome
  denies, is not modelled.
- Relay names are kept as the bytes of the request: lossy decoding gives the sidecar's name from exactly its own bytes.
- Lengths returned by `aos_vm_take_output` are not cast to 32 bits; `aos_vm_take_output_ex` and two consumers at once
  are not modelled.
- The grapheme buffer of a cell, and style values of the native library, are read as given.
- Decoding guest output as UTF-8 and encoding it again in the boot filter; text is a sequence of characters.
- The session's chrome: titles, progress, bell, notifications, the status line, key, paste, mouse, scroll and resize
  handlers, and the erased surface after a freeze. Of the tick, the calls into the two hosts and the idle timer are
  kept.
- The session's 500 ms wait, its 20 ms timer and the idle delay are choices of the run. A listener that disposes the
  session from within a notification is not modelled, nor, but for the opening, is a call between two awaits that throws
  for another reason than a closed wrapper; an awaited call that throws is. A guest counts as freed when its wrapper is
  closed.
- start: two awaits with nothing between them but the boot count as one. An opening that throws after the session has
  its terminal is the step in which it opens, followed at once by a failed boot: both end in the same catch block.
- Decoding an image is a step with or without an image at its end; its size checks and exceptions are not modelled.
- NotebookController: listeners, the clock in the cells and the key hints.
- Freeze and projection take frames with as many cells as rows times columns, as the class says they have
  (`lib/vt/frame.dart:103`).
- Boot JSON, exec, files, snapshots, performance counters, catalogues, widgets and key maps would only add easy members.
