# Queues under the media pipeline, modelled and proved

The repository moves audio, video and trace data between threads through a few small hand-written
components. This project models those components in Dafny and proves what their callers rely on.

| component | files here | what is proved |
|---|---|---|
| `data_queue`, a ring of variable-length blocks | `Blocks`, `RingLayout`, `DataQueueModel`, `DataQueueRuns`, `DataQueue`, `DataQueueSync` | resident blocks tile the buffer and stay in place; exactly when a request is granted and what is reported free; every legal run is a run of a first-in first-out list; reservations stay valid under any reader; no lost wakeup, bounded waiting, drains included, and exactly when reader and writer can deadlock |
| `share_q`, a reference-counted fan-out ring | `ShareQueueModel`, `ShareQueueRuns`, `ShareQueueOrder`, `ShareQueue`, `ShareQueueMuxer` | exactly which runs free every frame once, in the order of adding, with somebody left to free each of the others; sends under the lock have room |
| memory history, a slice ring written by hooks and emptied by a saver thread | `MemHistoryModel`, `MemHistory` | no byte lost, repeated or out of place in any interleaving; admitted records get copied and saved; exactly when the final file is complete |
| board configuration text | `CfgText`, `CfgParse` | the parser undoes the printer, for words of the listed characters, up to the first refused line; exactly when it refuses a line, and when it does not end |
| YUV420 to RGB565 | `ColorConvert` | every pixel shows the BT.601 colour of its own samples, within stated bounds; big-endian output is the byte swap |
| frames laid over the queue | `Framing`, `FramingRuns` | in every run of copied, filler and decoded-in-place frames the frame read k-th is the frame completed k-th; alignment always fits |
| pause, resume and exit of the peer task | `PauseHandshake` | mutual exclusion in every interleaving, no stale bits, waits end, the main loop runs on and calls are carried through |
| audio resampling | `Resample` | the plan reaches the output format and all of it is applied in order; two work buffers suffice |
| WiFi credentials | `CredentialModel`, `CredentialStore` | three-slot store is the last three names with their latest passwords |

Code that changes objects in place is written as classes and loops (`DataQueue`, `ShareQueue`,
`SaveHistory`, `Converter`, `Resampler`, `Storage`, and the loops of `CfgParse`). Each of their methods
is tied by its contract to a function on values, and the theorems over runs are about those functions.
Two-thread protocols (`DataQueueSync`, `MemHistoryModel`, `PauseHandshake`) are state machines whose
steps are the points at which the threads can interleave.

## Where the code departs from what its comments promise

The code is modelled as it is. Each departure has its exact condition or a concrete input.

- Draining a data queue leaves it consistent exactly when nothing is read-locked, and crashes exactly when a block fills the whole buffer (`ConsumeAllIff`, `DrainWhileLockedTraps`, `DrainFullBlockTraps`).
- `data_queue_peek_unlock` is described as giving a block back unconsumed; the next read skips it (`PeekedBlockIsSkipped`).
- `data_queue_get_available` is sound for requests of at least one byte; it reports 0 on a full queue, where asking for 0 bytes waits (`ReportedZeroOnFullQueue`).
- A request of an idle reader can be left unanswered for good, beside an idle writer, exactly when the reader holds a block and nothing is unread (`StuckUnansweredIff`); so asking on while holding can always end in a deadlock (`HoldAndWaitDeadlocks`), and does in some run from the start (`DeadlockIsReachable`). A reader that gives back first is safe (`WriterIsServed`, `AskingNotStuck`).
- A run of `share_q` is orderly exactly when, after any part of it and whatever the users then receive and give back, frames are freed in the order they were added and somebody still has each frame not yet freed (`ExactlyOnceIff`, `RunKeepsFramesIff`, and for one step `StepKeepsFramesIff`). Three things the code allows are not orderly, each with a run from creation that loses a frame for good: storing while a user that is off has frames left (`AddDuringDrainLosesFrame`), storing after a wait with nobody on any more, because `valid_count` is tested before the wait and not after it (`LastUserLeavesDuringWait`), and draining a user that has a frame in hand (`DrainBesideHandLosesFrame`).
- With the muxer's queue common to audio and video, switching the muxer off in the video queue drains audio frames without dropping their references, exactly when any are waiting, and passes over a video frame in the muxer's hand exactly when another is waiting (`CommonDrainKeepsInvIff`).
- A `share_q` created with its own message queues starts consistent only if it has no users (`StartInvIff`). Every frame stored before a user is switched on or off is never freed, in any run (`InternalQueueLeaksFrames`); switching any user before the first add puts it right (`SwitchRepairsStart`).
- Stopping memory history loses full slices when it falls between the saver's two unlocked looks (`StoppedFileIff`, `StopLosesSlice`), and the rest of a record it interrupts (`FinalFileIff`, `StopInsideRecordLosesTail`).
- The configuration parser runs for ever exactly when its first line is opened and never closed and is of a type that fills no board table (`RunsForeverIff`); an unclosed line of the other types is refused once its table is full.
- The configuration parser reads on behind its text after an unclosed line that is shorter than the line closed before it (`StaysInsideIff`, `UnclosedLastLineIff`, `ShortUnclosedLineLeaves`).
- A memory-history cache below four bytes is accepted, and the copy loop then never moves (`CopyStallsIff`).
- Credential lengths are not checked on saving; what was saved can be read back exactly when it fits (`SavedReadableIff`).
- The colour table fills the low bits of U from the luma index; the formula here does the same.

## Model

| member | source | states |
|---|---|---|
| Blocks.DecodeEncode32 | components/media_lib_sal/port/data_queue.c:288-289 | a size stored in a block header is loaded back as the same signed int exactly when it is at most 2^31 - 1 |
| Blocks.FootprintIsPayloadPlusHeads | components/media_lib_sal/port/data_queue.c:418-419 | the bytes of a list of blocks are its payload bytes plus four for each block |
| Blocks.LaidAt | components/media_lib_sal/port/data_queue.c:413-417 | skipping the sizes of the blocks before it leads to the header of block k, and the rest is laid out from there |
| Blocks.LaidFrame | components/media_lib_sal/port/data_queue.c:245-249 | a region of laid-out blocks does not depend on bytes outside it |
| RingLayout.HaveDataIffResident | components/media_lib_sal/port/data_queue.c:92-98 | the emptiness test is true exactly when a block is resident, and the pointer distance is the resident bytes |
| RingLayout.WrapKeepsTiling | components/media_lib_sal/port/data_queue.c:235-244 | turning back to offset 0 keeps the tiling of [rp,wp), or [rp,fill_end) then [0,wp), and loses no block |
| RingLayout.CommitKeepsTiling | components/media_lib_sal/port/data_queue.c:286-294 | a commit that fits keeps the tiling and appends one unread block |
| RingLayout.TakeKeepsTiling | components/media_lib_sal/port/data_queue.c:351 | lowering `filled` moves the oldest unread block, and only it, to the read-locked ones |
| RingLayout.FreeKeepsTilingIff | components/media_lib_sal/port/data_queue.c:379-389 | freeing the oldest block keeps the tiling if and only if it had been read-locked; it removes that block alone |
| RingLayout.CurrentIsOldestUnread | components/media_lib_sal/port/data_queue.c:340-345 | the recomputed read position is the header of the oldest unread block, however many blocks are read-locked |
| RingLayout.BlockInBuffer | components/media_lib_sal/port/data_queue.c:184-200 | each block ends where the next begins or at fill_end, inside the buffer |
| RingLayout.FullBlockIsOldest | components/media_lib_sal/port/data_queue.c:148 | no block exceeds the buffer, and only the oldest one can equal it |
| RingLayout.ReservationDisjoint | components/media_lib_sal/port/data_queue.c:188-200 | the bytes a writer may use overlap no resident block, read-locked ones included |
| RingLayout.ReaderKeepsSpace | components/media_lib_sal/port/data_queue.c:374-392 | reading, unlocking and draining leave wp where it is and never shrink the space behind it |
| RingLayout.GrantedIff | components/media_lib_sal/port/data_queue.c:234-250 | a request is granted without waiting iff nothing is resident, or it fits between wp and the buffer's end or in front of rp, or, once the writer has turned back, between wp and rp |
| RingLayout.TurnsIff | components/media_lib_sal/port/data_queue.c:234-244 | the writer turns back to offset 0 iff no turn is pending and the bytes up to the buffer's end do not suffice; an empty queue starts afresh |
| RingLayout.ReportedIs | components/media_lib_sal/port/data_queue.c:202-223 | the reported size is, less a header, the whole buffer when nothing is resident, else the bytes from wp to the buffer's end, or to rp after a turn |
| RingLayout.EmptyAdmits | components/media_lib_sal/port/data_queue.c:237-244 | a drained queue has room for any request that fits the buffer, wherever the pointers stopped |
| RingLayout.ReportedIsSound | components/media_lib_sal/port/data_queue.c:202-223 | a reported size of n >= 1 bytes means room for n bytes and a header |
| RingLayout.ReportedZeroOnFullQueue | components/media_lib_sal/port/data_queue.c:202-223 | a full queue on which the same promise fails for n = 0 |
| RingLayout.DrainKeepsTilingIff | components/media_lib_sal/port/data_queue.c:142-158 | draining leaves a consistent empty queue if and only if nothing is read-locked; `filled` ends at minus the read-locked bytes |
| RingLayout.WrapKeepsPlaces | components/media_lib_sal/port/data_queue.c:237-244 | no resident payload moves when the writer turns back to offset 0 |
| RingLayout.CommitAddsPlace | components/media_lib_sal/port/data_queue.c:288-294 | a commit leaves every payload in place and adds one at the write pointer |
| RingLayout.FreeDropsPlace | components/media_lib_sal/port/data_queue.c:385-389 | freeing the oldest block leaves the other payloads in place, the turn at fill_end included |
| DataQueueModel.FreshHolds | components/media_lib_sal/port/data_queue.c:105-121 | a new queue holds no block |
| DataQueueModel.BlockFound | components/media_lib_sal/port/data_queue.c:346-353 | every resident block is found at its offset with its own size and unmodified payload |
| DataQueueModel.ReserveHolds | components/media_lib_sal/port/data_queue.c:225-259 | a reservation changes no block or byte, and one that fits the buffer is granted iff the pointers leave n + 4 bytes in one piece where GrantedIff says |
| DataQueueModel.ReservedIff | components/media_lib_sal/port/data_queue.c:225-250 | a reservation is refused iff n + 4 exceeds the buffer; a granted one starts at wp, or at 0 when it does not fit behind wp and no turn is pending |
| DataQueueModel.ReportedRoomIsGranted | components/av_render/src/av_render.c:1570-1577 | when the fifo-enough check reads at least n >= 1 bytes available, reserving n bytes does not wait |
| DataQueueModel.EmptyQueueGrants | components/media_lib_sal/port/data_queue.c:234-250 | with nothing resident, any n with n + 4 <= size is granted at once |
| DataQueueModel.WriteHolds | components/media_lib_sal/port/data_queue.c:245-249 | writing inside a reservation stays in the buffer and disturbs no resident block |
| DataQueueModel.SendHolds | components/media_lib_sal/port/data_queue.c:272-309 | a commit that fits appends exactly the reserved bytes, where they are, as the newest unread block |
| DataQueueModel.LockHolds | components/media_lib_sal/port/data_queue.c:325-360 | read_lock returns the oldest unread block and moves it to the read-locked ones, or finds nothing exactly when nothing is unread |
| DataQueueModel.UnlockHolds | components/media_lib_sal/port/data_queue.c:374-398 | read_unlock releases the oldest read-locked block and leaves the unread ones |
| DataQueueModel.UnlockHoldsIff | components/media_lib_sal/port/data_queue.c:374-398 | an unlock leaves a consistent queue if and only if the oldest block had been read-locked |
| DataQueueModel.DrainTrapsIff | components/media_lib_sal/port/data_queue.c:146-150 | the drain loop's guard is met only by the oldest block, exactly when it fills the buffer |
| DataQueueModel.ConsumeAllIff | components/media_lib_sal/port/data_queue.c:138-162 | consume_all crashes iff some resident block fills the buffer; otherwise the queue is consistent and empty iff nothing was read-locked |
| DataQueueModel.WalkStep | components/media_lib_sal/port/data_queue.c:408-420 | one step of the header walk of query and drain lands on the next block's header |
| DataQueueModel.PeekedBlockIsSkipped | components/media_lib_sal/port/data_queue.c:362-372 | after lock and peek_unlock the next read returns the following block, never the peeked one |
| DataQueueModel.DrainWhileLockedTraps | components/media_lib_sal/port/data_queue.c:147-152 | a concrete queue where draining beside a read-locked block makes `filled` negative and the next read leave the buffer |
| DataQueueModel.DrainFullBlockTraps | components/media_lib_sal/port/data_queue.c:148 | a concrete valid queue, readable as any other, whose drain crashes |
| DataQueueRuns.StepRefinesFifo | components/media_lib_sal/port/data_queue.c:225-398 | every legal step keeps the representation and shows an outcome that a first-in first-out list of blocks allows |
| DataQueueRuns.RunRefinesFifo | components/media_lib_sal/port/data_queue.c:138-398 | over every legal run of reserve, write, commit, abort, lock, unlock and drain the outcomes are those of the list, payloads with their places; nothing traps, no commit inside a reservation is rejected |
| DataQueueRuns.ReadsAreOldestFirst | components/media_lib_sal/port/data_queue.c:325-360 | on the list, the blocks read are a prefix of what was unread followed by what is committed |
| DataQueueRuns.ReleasesFollowReads | components/media_lib_sal/port/data_queue.c:374-398 | on the list, blocks are released in the order they were read |
| DataQueueRuns.ReadsAreCommittedInOrder | components/media_lib_sal/port/data_queue.c:225-398 | from an empty queue, without drains, the payloads read, bytes and places, are a prefix of those committed and the released ones a prefix of those read |
| DataQueueRuns.ReaderRunFrame | components/media_lib_sal/port/data_queue.c:325-398 | any run of reader steps leaves wp and every byte alone and never shrinks the space |
| DataQueueRuns.ReservationIsStable | components/media_lib_sal/port/data_queue.c:286-300 | between reservation and commit, whatever the reader does, committing 1..n bytes succeeds with exactly the bytes the writer left there |
| DataQueueRuns.WriteThenRead | components/media_lib_sal/port/data_queue.c:225-398 | whatever fits an empty buffer, headers included, goes through: granted, written, committed, read with its bytes at offset 4, released |
| DataQueues.DataQueue.constructor | components/media_lib_sal/port/data_queue.c:105-121 | creates an empty queue of the given size |
| DataQueues.DataQueue.GetAvailable | components/media_lib_sal/port/data_queue.c:202-223 | reports the room behind the write pointer, exact in the pointers, less a header; the whole buffer when nothing is resident |
| DataQueues.DataQueue.GetBuffer | components/media_lib_sal/port/data_queue.c:225-259 | one pass of the loop is the reservation step; no block is lost; it grants iff the pointers leave n + 4 bytes in one piece, and hands out n bytes behind a header and counts a user |
| DataQueues.DataQueue.SendBuffer | components/media_lib_sal/port/data_queue.c:272-309 | in place, appends the bytes behind the write pointer as the newest block, or aborts, or rejects and changes nothing but the user count |
| DataQueues.DataQueue.HaveData | components/media_lib_sal/port/data_queue.c:311-323 | true exactly when not quitting and a block is resident |
| DataQueues.DataQueue.ReadLock | components/media_lib_sal/port/data_queue.c:325-360 | returns position and length of the oldest unread block's payload |
| DataQueues.DataQueue.ReadUnlock | components/media_lib_sal/port/data_queue.c:374-398 | frees the oldest resident block and nothing else, in any consistent queue; the queue stays consistent iff that block had been read-locked |
| DataQueues.DataQueue.PeekUnlock | components/media_lib_sal/port/data_queue.c:362-372 | changes only the user count |
| DataQueues.DataQueue.ConsumeAll | components/media_lib_sal/port/data_queue.c:138-162 | the loop ends and does what the one-step drain says, crash included; stops at once when quitting |
| DataQueues.DataQueue.Query | components/media_lib_sal/port/data_queue.c:400-425 | ends in every state, full ones included, with exactly the number and payload bytes of resident blocks, read-locked ones counted |
| DataQueueSync.StepKeepsInv | components/media_lib_sal/port/data_queue.c:33-82 | every step of either thread, the drain's included, keeps the tiling, lock ownership, reservation and wakeup invariants |
| DataQueueSync.RunKeepsInv | components/media_lib_sal/port/data_queue.c:33-82 | so does every interleaving |
| DataQueueSync.NoLostWakeup | components/media_lib_sal/port/data_queue.c:293-298 | from the start, in every interleaving, drains included: a parked reader with unread data has ARRIVE set or about to be set under the lock, likewise CONSUME for a parked writer whose request fits; both parked with no bit set only while the reader holds a block |
| DataQueueSync.DrainedBlock | components/media_lib_sal/port/data_queue.c:142-158 | with nothing read-locked, draining the oldest block keeps the tiling, the write pointer and the space, and drops that block alone |
| DataQueueSync.DrainEmpties | components/media_lib_sal/port/data_queue.c:142-158 | a drain that owns the lock frees every block by steps of its own, gives the lock back and sets CONSUME |
| DataQueueSync.WaitingUsesPotential | components/media_lib_sal/port/data_queue.c:234-256 | with a reader that gives back before asking again, every step while the writer waits serves it or lowers a bound, which only a new request to drain raises |
| DataQueueSync.WaitingIsNeverStuck | components/media_lib_sal/port/data_queue.c:54-82 | while the writer waits some step is enabled |
| DataQueueSync.WriterIsServed | components/media_lib_sal/port/data_queue.c:234-256 | so a request that fits the buffer is granted within that bound, plus five steps for each drain asked for, in every interleaving |
| DataQueueSync.ReaderDelayedOnlyByLock | components/media_lib_sal/port/data_queue.c:332-339 | with unread data an asking reader can step unless the writer owns the lock, and then the writer can |
| DataQueueSync.AskingMovesOn | components/media_lib_sal/port/data_queue.c:332-339 | no writer step takes waiting data away, and each reader step brings the read nearer |
| DataQueueSync.ReaderIsServed | components/media_lib_sal/port/data_queue.c:332-358 | in every interleaving an asking reader with unread data takes it after at most three other steps of its own |
| DataQueueSync.HoldAndWaitDeadlocks | components/media_lib_sal/port/data_queue.c:332-339 | from every state with reader and writer idle and a block held, some run that begins with a request ends with nobody able to move |
| DataQueueSync.StuckUnansweredIff | components/media_lib_sal/port/data_queue.c:332-339 | one request of an idle reader, the writer idle, can be left unanswered with nobody able to move iff the reader holds a block and nothing is unread |
| DataQueueSync.AskingNotStuck | components/media_lib_sal/port/data_queue.c:54-82 | while a reader that holds nothing, or has data to read, is asking, somebody can move |
| DataQueueSync.DeadlockIsReachable | components/media_lib_sal/port/data_queue.c:234-256 | for every buffer of more than four bytes such a deadlock is reached from the empty queue |
| ShareQueueModel.LiveCountIsLength | components/esp_capture/src/share_q.c:195-196 | the live count is (wp - rp) mod q_count, at most q_count - 1, and the full test is exactly that maximum |
| ShareQueueModel.StoreKeepsInvIff | components/esp_capture/src/share_q.c:200-215 | storing a frame keeps the invariant, which says that users are behind by a suffix of the live frames and counts are holders, iff somebody is on at that moment and every user that is off has been drained |
| ShareQueueModel.RecvKeepsInv | components/esp_capture/src/share_q.c:156-163 | receiving moves a frame from queue to hand and changes no count |
| ShareQueueModel.SetEnableKeepsInv | components/esp_capture/src/share_q.c:109-117 | switching a user recounts the valid users, which keeps the invariant and puts a wrong count right |
| ShareQueueModel.LastHolderIsOldest | components/esp_capture/src/share_q.c:231-236 | when users give back in order, a frame whose last holder lets go is the oldest one |
| ShareQueueModel.ReleaseCounted | components/esp_capture/src/share_q.c:230-240 | releasing any live frame keeps counts equal to holders while others have it, and when it is the last and the oldest; the last release of any frame frees it |
| ShareQueueModel.DoneSharedKeepsInv | components/esp_capture/src/share_q.c:230-240 | a release that leaves holders counts down one and frees nothing |
| ShareQueueModel.DoneLastKeepsInv | components/esp_capture/src/share_q.c:231-238 | the last release frees the oldest frame, once, with no holder left, and rp + 1 retires exactly its slot |
| ShareQueueModel.DoneKeepsInv | components/esp_capture/src/share_q.c:220-247 | any release either frees nothing or frees the oldest live frame and drops it from the ring |
| ShareQueueModel.DrainOneKeepsInvIff | components/esp_capture/src/share_q.c:124-126 | one pass of the drain keeps the invariant and frees in order iff the user has nothing in hand; otherwise no list of live frames fits |
| ShareQueueModel.DrainKeepsInvIff | components/esp_capture/src/share_q.c:120-128 | draining a whole queue does so iff the user has nothing in hand or nothing is queued |
| ShareQueueModel.DisableAndDrainKeepsInvIff | components/esp_capture/src/share_q.c:104-133 | the same for switching off and draining at once, which leaves nobody off with frames left |
| ShareQueueModel.EmptiedKeepsInvIff | components/esp_capture/src/share_q.c:244-246 | a queue emptied without its frames being found keeps counts equal to holders iff it was empty |
| ShareQueueRuns.StepKeepsOrderIff | components/esp_capture/src/share_q.c:104-247 | a step of producer, users, switch or drain keeps the invariant, with freed, live and waiting frames in the order of adding, iff it is orderly; adds that wait are stored without a second test |
| ShareQueueRuns.FreedInOrder | components/esp_capture/src/share_q.c:183-247 | over every orderly run, freed, live and waiting frames are the frames added, in order |
| ShareQueueRuns.ExactlyOnceInOrder | components/esp_capture/src/share_q.c:57-247 | from creation on, over every orderly run, each frame is freed at most once, in the order added, never while held; the rest, at most q_count - 1, are in the ring with as many references as holders, or wait with the producer |
| ShareQueueOrder.OvertakenRun | components/esp_capture/src/share_q.c:230-238 | when a user still has a frame and will not have the one behind it, the other users can, by receiving and giving back alone, free the later frame first |
| ShareQueueOrder.DisorderlyStepLoses | components/esp_capture/src/share_q.c:183-247 | after every step that is not orderly the users can make the callback log leave the order of adding, or a frame is left that nobody has |
| ShareQueueOrder.StepKeepsFramesIff | components/esp_capture/src/share_q.c:104-247 | a step is orderly iff, whatever the users then receive and give back, frames are freed in the order of adding and somebody has each one not yet freed |
| ShareQueueOrder.RunKeepsFramesIff | components/esp_capture/src/share_q.c:104-247 | a run from any consistent state is orderly iff that holds after every part of it |
| ShareQueueOrder.ExactlyOnceIff | components/esp_capture/src/share_q.c:57-247 | from creation on, exactly the orderly runs do so after every part of them |
| ShareQueueOrder.UsersCanFinish | components/esp_capture/src/share_q.c:220-247 | from every consistent state the users can, by receiving and giving back alone, get every live frame freed, in order |
| ShareQueueRuns.SendHasRoom | components/esp_capture/src/share_q.c:205-214 | a user's message queue holds at most q_count - 1 frames even after the one being added |
| ShareQueueMuxer.MuxerSendHasRoom | components/esp_capture/src/esp_capture.c:755-760 | the common muxer queue of 10, fed by both share queues of 5, holds at most 8 frames and has room for the one being added beside one stop command |
| ShareQueueMuxer.CommonDrainKeepsInvIff | components/esp_capture/src/esp_capture.c:629-639 | draining the common queue into the video queue keeps the video references iff the muxer has no video frame in hand or none is waiting, and the audio ones iff no audio frame was waiting |
| ShareQueueRuns.InternalQueueLeaksFrames | components/esp_capture/src/share_q.c:73-83 | with internal queues every frame stored before a user is switched on or off is never freed, in any run that does not add it again |
| ShareQueueRuns.StartInvIff | components/esp_capture/src/share_q.c:57-92 | a new queue is consistent iff its count of valid users starts at zero |
| ShareQueueRuns.SwitchRepairsStart | components/esp_capture/src/share_q.c:109-117 | switching any user before the first add makes it consistent whatever the count was |
| ShareQueueRuns.StoredForNobody | components/esp_capture/src/share_q.c:200-215 | a frame stored while no user is on is not freed from then on in any run, whatever the count says |
| ShareQueueRuns.OrphanNeverFreed | components/esp_capture/src/share_q.c:220-247 | a frame nobody has queued or in hand is not freed from then on, whatever happens, unless it is added anew |
| ShareQueueRuns.LastUserLeavesDuringWait | components/esp_capture/src/share_q.c:189-203 | a run from creation: the last user is switched off and drained while the producer waits, and the frame is stored with no references and never freed |
| ShareQueueRuns.DrainBesideHandLosesFrame | components/esp_capture/src/esp_capture.c:633-636 | a run from creation: the drain frees the frame behind the one in hand, rp passes the wrong slot, and the frame in hand is not found and never freed |
| ShareQueueRuns.AddDuringDrainLosesFrame | components/esp_capture/src/share_q.c:109-130 | a run from creation: an add between switching off and drain makes rp pass an unreleased slot, and its frame is not found and never freed |
| ShareQueues.ShareQueue.Add | components/esp_capture/src/share_q.c:188-215 | tests `valid_count` once: gives the frame straight back, or stores it, or finds the ring full and changes nothing |
| ShareQueues.ShareQueue.AddWhenRoom | components/esp_capture/src/share_q.c:195-215 | one pass of the wait loop: stores with the count of that moment, and sends to exactly the users that are on |
| ShareQueues.ShareQueue.Release | components/esp_capture/src/share_q.c:220-247 | the search loop decrements the first matching slot between rp and wp and at zero runs the callback and moves rp by one |
| ShareQueues.ShareQueue.Enable | components/esp_capture/src/share_q.c:104-133 | the switch and the drain loop, uninterrupted, empty the queue of a user switched off by releasing its frames in order |
| ShareQueues.ShareQueue.Switch | components/esp_capture/src/share_q.c:109-117 | the locked part: the counting loop counts the users that are on |
| ShareQueues.ShareQueue.DrainPass | components/esp_capture/src/share_q.c:124-126 | one pass of the drain loop: takes the oldest message and releases its frame |
| ShareQueues.ShareQueue.Recv | components/esp_capture/src/share_q.c:156-163 | returns the oldest message of the user's queue |
| MemHistoryModel.RefusedIff | components/media_lib_sal/mem_trace/media_lib_mem_his.c:81-94 | a record is turned away iff all four slices wait to be saved and it is longer than a slice |
| MemHistoryModel.ChunkConserves | components/media_lib_sal/mem_trace/media_lib_mem_his.c:96-122 | a pass of the copy loop overwrites no slice that waits to be saved and loses no byte |
| MemHistoryModel.CopyStallsIff | components/media_lib_sal/mem_trace/media_lib_mem_his.c:103-120 | a pass of the copy loop changes nothing iff the slices have size 0 |
| MemHistoryModel.SaveConserves | components/media_lib_sal/mem_trace/media_lib_mem_his.c:130-138 | the slice written to the file is the oldest full one, unchanged since it was picked |
| MemHistoryModel.RetireConserves | components/media_lib_sal/mem_trace/media_lib_mem_his.c:139-141 | lowering n takes exactly the slice already in the file off the ring, whatever was filled meanwhile |
| MemHistoryModel.FlushConserves | components/media_lib_sal/mem_trace/media_lib_mem_his.c:149-155 | the final flush appends exactly the partial slice |
| MemHistoryModel.RunConserves | components/media_lib_sal/mem_trace/media_lib_mem_his.c:81-155 | in every interleaving of hooks, saver and stop: file, full slices, partial slice and the rest of the record being copied are together exactly the admitted records |
| MemHistoryModel.FinalFileIff | components/media_lib_sal/mem_trace/media_lib_mem_his.c:143-155 | when the saver has finished, the file is the stream iff no full slice was left and no record was being copied |
| MemHistoryModel.HistoryConserves | components/media_lib_sal/mem_trace/media_lib_mem_his.c:81-155 | from the start of a history, in every interleaving, the bytes are the records admitted since; the finished file is all of them iff no full slice was left and no record was being copied |
| MemHistoryModel.StoppedFileIff | components/media_lib_sal/mem_trace/media_lib_mem_his.c:172-180 | with quiet hooks, the final file is the stream iff stop does not fall between the saver's look at an empty ring and its look at `stopping` with a slice filled in between |
| MemHistoryModel.StopLosesSlice | components/media_lib_sal/mem_trace/media_lib_mem_his.c:128-146 | a concrete run of that kind: a recorded slice is missing from the file |
| MemHistoryModel.StopInsideRecordLosesTail | components/media_lib_sal/mem_trace/media_lib_mem_his.c:172-180 | a concrete run in which stop interrupts a record and half of it is missing |
| MemHistoryModel.SliceGetsSaved | components/media_lib_sal/mem_trace/media_lib_mem_his.c:124-143 | with a full slice waiting, the saver has saved the oldest within five steps of its own |
| MemHistoryModel.RecordGetsCopied | components/media_lib_sal/mem_trace/media_lib_mem_his.c:96-122 | an admitted record is copied whole in some run of hook and saver |
| MemHistoryModel.SaverFinishes | components/media_lib_sal/mem_trace/media_lib_mem_his.c:143-170 | once stop was called the saver finishes by its own steps |
| MemHistories.SaveHistory.constructor | components/media_lib_sal/mem_trace/media_lib_mem_his.c:211-223 | four separate slices of a quarter of the cache each, whatever its size |
| MemHistories.SaveHistory.CopyPass | components/media_lib_sal/mem_trace/media_lib_mem_his.c:102-120 | in place, one locked pass is the protocol's copy step, and the rest of the buffer is returned |
| MemHistories.SaveHistory.PickHead | components/media_lib_sal/mem_trace/media_lib_mem_his.c:131 | the index of the oldest full slice |
| MemHistories.SaveHistory.FlushPartial | components/media_lib_sal/mem_trace/media_lib_mem_his.c:149-155 | the protocol's flush step |
| CfgText.BoardOnly | components/codec_board/cfg_parse.c:31-46 | of all words, only the type "Board" is taken for the next section |
| CfgText.GapSkipped | components/codec_board/cfg_parse.c:136-160 | comment lines, blanks and other non-word characters are skipped to the next word |
| CfgText.AttrsScanned | components/codec_board/cfg_parse.c:179-218 | a printed attribute list is scanned back whole, up to and past its brace |
| CfgText.LineParsed | components/codec_board/cfg_parse.c:130-221 | a printed line behind comments is parsed back, and what follows it is left |
| CfgText.ParserUndoesPrinter | components/codec_board/cfg_parse.c:755-777 | for every list of word-only lines with any comments between them, parsing what was printed hands on the same lines in order up to the first refused one, and ends |
| CfgText.PrintedBoardIsParsed | components/codec_board/cfg_parse.c:25-29 | the same for words of letters, digits, '_', '-' and '.', spelled out, and comment lines of any characters |
| CfgText.BoardLineParsed | components/codec_board/board_cfg.txt:6 | the line `i2c: {sda: 17, scl: 18}` is handed on as type i2c with sda 17 and scl 18 |
| CfgText.CommentsAreGap | components/codec_board/cfg_parse.c:136-160 | whole comment lines, whatever they say, are skipped |
| CfgText.LineLaidOut | components/codec_board/cfg_parse.c:130-221 | a line in any layout: its type, anything up to a brace, words with anything but words and braces between them paired off two by two, line ends included, up to the closing brace |
| CfgText.RefusedIff | components/codec_board/cfg_parse.c:693-752 | a line is refused iff it is the third of i2c, of i2s, or of in, out and in_out together, the second of lcd, sdcard or camera, or a codec line with bad attributes |
| CfgText.AllHandedOnIff | components/codec_board/cfg_parse.c:770-775 | all lines are handed on iff none is refused; otherwise the last one handed on is the first refused |
| CfgText.RunsForeverIff | components/codec_board/cfg_parse.c:755-777 | the parse is still running after any number of rounds iff its first line is opened, never closed, and of a type that fills no table |
| CfgText.EndsOnceMoving | components/codec_board/cfg_parse.c:766-767 | once one line has been closed the parse ends within one round for each character left, stale advances included |
| CfgText.TableFillsUp | components/codec_board/cfg_parse.c:223-228 | an unclosed first line that fills a table is refused, which ends the parse, within one round more than the table holds |
| CfgText.UnclosedFirstLineHangs | components/codec_board/cfg_parse.c:182-187 | a two-character text that hangs the parser, and one of another type that does not |
| CfgText.StaysInsideIff | components/codec_board/cfg_parse.c:763-768 | the parse stays inside its text iff it meets no last word without a brace and no unclosed line, taken, that is shorter than the last closed one |
| CfgText.UnclosedLastLineIff | components/codec_board/cfg_parse.c:766-767 | for a printed line and an unclosed one behind it, both taken, the lengths at which the parse leaves the text |
| CfgText.ShortUnclosedLineLeaves | components/codec_board/cfg_parse.c:766-767 | a text of two lines behind which the parser reads on |
| CfgParse.WordAt | components/codec_board/cfg_parse.c:88-97 | the loop returns the leading word |
| CfgParse.FindName | components/codec_board/cfg_parse.c:136-160 | the first loop stops at the next word outside comments |
| CfgParse.FindBrace | components/codec_board/cfg_parse.c:172-173 | the second loop stops behind the next opening brace, if there is one |
| CfgParse.ParseSection | components/codec_board/cfg_parse.c:130-221 | the pointer loops compute the specification of one line |
| CfgParse.ScanBody | components/codec_board/cfg_parse.c:175-219 | the scan between the braces computes the attribute pairs |
| CfgParse.ParseCfg | components/codec_board/cfg_parse.c:755-777 | the outer loop, watched for any number of rounds, computes the lines handed on and whether and how it has ended |
| ColorConvert.SwapBytes | components/av_render/src/color_convert.c:76 | the high byte of a swapped pixel is the low byte of the pixel, and the reverse |
| ColorConvert.ColourShows | components/av_render/src/color_convert.c:33-36 | the three fields of every table entry lie within 23, 16 and 26 of 256 levels of the BT.601 red, green and blue of the full eight-bit samples |
| ColorConvert.RedAndBlueRise | components/av_render/src/color_convert.c:57-100 | for equal Y the red field never falls as V rises and does not depend on U; the blue field never falls as U rises and does not depend on V |
| ColorConvert.RedIsRed | components/av_render/src/color_convert.c:57-100 | Y 81, U 90, V 240 gives 0xF800, and 0x00F8 in big-endian |
| ColorConvert.TableIndexSplits | components/av_render/src/color_convert.c:138-141 | six bits of Y and five each of U and V index the 65536 entries exactly |
| ColorConvert.InitTable | components/av_render/src/color_convert.c:57-100 | the three loops fill every entry with its colour |
| ColorConvert.PlaneBounds | components/av_render/src/color_convert.c:129-141 | for even sizes every plane index is in bounds |
| ColorConvert.ConvertRow | components/av_render/src/color_convert.c:136-151 | one line of pixel pairs, with the running positions where they should be at its end |
| ColorConvert.Yuv420ToRgb565 | components/av_render/src/color_convert.c:127-156 | every pixel is the table entry of its own Y and its two by two U and V; nothing behind the frame is touched |
| ColorConvert.PixelFormula | components/av_render/src/color_convert.c:33-36 | with a filled table that entry is the entry for those samples, in the byte order asked for |
| ColorConvert.CellShows | components/av_render/src/color_convert.c:127-156 | so the pixel shows the BT.601 colour of the sample at its own place in the Y plane and of the U and V its two by two pixels share, byte order included |
| ColorConvert.BigEndianIsSwapped | components/av_render/src/color_convert.c:75-76 | big-endian output is the byte swap of little-endian output, pixel by pixel, and the other way round |
| ColorConvert.Converter.ConvertColor | components/av_render/src/color_convert.c:158-185 | every pixel of dst is the table colour of, and within those bounds shows, the samples at Y[i*w+j] and U, V at [(i/2)*(w/2)+j/2]; sizes and formats that are refused, and then dst unchanged |
| Framing.RoundTripIff | components/av_render/src/av_render.c:179-275 | a frame is received as it was put iff a pool is used or its header carries its data's size |
| Framing.PoolMismatchIff | components/av_render/src/av_render.c:240-275 | when only the writer uses a pool, the reader's size check fails iff there was data |
| Framing.FillerReceived | components/av_render/src/av_render.c:766-777 | the zeroed wake-up block is received as an empty frame by every reader |
| Framing.CopiedFrameReceived | components/av_render/src/av_render.c:301-319 | the video render reader returns a copied frame whatever stale pointer its header holds |
| Framing.ClearLowRounds | components/av_render/src/av_render.c:1011-1012 | masking the low bits rounds down to a multiple of the power of two |
| Framing.AlignedFrameFits | components/av_render/src/av_render.c:996-1015 | for every power-of-two alignment the buffer is aligned, behind the header, and the bytes asked for fit the reservation |
| FramingRuns.BufferIsRead | components/av_render/src/av_render.c:300-319 | the video render reader gets header and picture of a frame buffer back from where the decoder left them |
| Framing.PutCommitsFrame | components/av_render/src/av_render.c:179-238 | header copy, payload copy and commit, with any reader steps between them, commit exactly header and payload |
| FramingRuns.NoReadFailsTheSizeCheck | components/av_render/src/av_render.c:240-319 | over every run of copied, filler and fetched frames, drains included, every read is accepted by its reader |
| FramingRuns.FramesArriveAsPut | components/av_render/src/av_render.c:179-319 | over every such run without drains, with the reader's steps anywhere between, the frame read k-th, from the address it lies at, is the frame completed k-th, header and payload; for all readers, the video render's included |
| FramingRuns.RunDelivers | components/av_render/src/av_render.c:996-1033 | such a run is a legal run of the queue, and the k-th block committed carries the k-th frame |
| FramingRuns.CopyCompletes | components/av_render/src/av_render.c:179-238 | a put whose reservation is granted completes exactly its frame, header and payload |
| FramingRuns.FetchCompletes | components/av_render/src/av_render.c:996-1033 | a frame buffer that is granted, filled by the decoder and released completes the frame with that picture and the decoder's header, but for the pointer in it |
| FramingRuns.DecodeStep | components/av_render/src/av_render.c:1010-1014 | what the decoder writes into its frame buffer changes that part of the picture and no header |
| FramingRuns.ReachedStep | components/av_render/src/av_render.c:1088-1094 | the finished frame's header keeps the pointer to its buffer, and the picture |
| FramingRuns.ReleaseStep | components/av_render/src/av_render.c:1017-1033 | a release commits the buffer as far as it is used, and its reader turns that block back into the frame |
| PauseHandshake.StepKeepsInv | components/esp_webrtc/src/esp_webrtc.c:336-353 | every step of task and control calls keeps the handshake invariant |
| PauseHandshake.HandshakeExcludes | components/esp_webrtc/src/esp_webrtc.c:795-822 | in every interleaving the task is parked while the BYE handler works, no PAUSED bit is left over, RESUME only reaches the task it is meant for, and close disconnects only after the task left its loop |
| PauseHandshake.WaitIsBounded | components/esp_webrtc/src/esp_webrtc.c:620-640 | while a control call waits, the task can move and gets nearer to setting the bit |
| PauseHandshake.WaitEnds | components/esp_webrtc/src/esp_webrtc.c:56-59 | so the wait for PAUSED or EXIT ends after at most eight task steps |
| PauseHandshake.MainLoopRuns | components/esp_webrtc/src/esp_webrtc.c:339-349 | from the top of its loop, while nobody asks it to pause or end, the task runs the main loop again after at most two of its own steps |
| PauseHandshake.ByeIsHandled | components/esp_webrtc/src/esp_webrtc.c:795-822 | from every state of the handshake with the task running, no close under way and control idle, some run that begins with BYE gets the handler to its critical part and then the task back to the main loop |
| PauseHandshake.CloseIsHandled | components/esp_webrtc/src/esp_webrtc.c:620-640 | from every state of the handshake with the task running and control idle, some run that begins with close ends the task and gets to the disconnect |
| Resample.PlanReaches | components/av_render/src/audio_resample.c:83-107 | for all formats the plan turns input into output with at most three converters, none repeated and none idle |
| Resample.RateRunsSmallest | components/av_render/src/audio_resample.c:83-107 | the rate converter runs at the smaller channel count and the smaller bit depth |
| Resample.NeedCoversOutput | components/av_render/src/audio_resample.c:135-150 | the size asked for holds what the converter writes, exactly unless it is the rate converter's bound |
| Resample.PlanChain | components/av_render/src/audio_resample.c:230-258 | the conversion is a chain over the whole plan: each converter gets what the one before it made, in the format folded so far, and the last output is the result |
| Resample.PlanLength | components/av_render/src/audio_resample.c:217-265 | the result is as long as its samples in the output format, their number changed by the rate converter alone and at most once |
| Resample.EnoughMemory | components/av_render/src/audio_resample.c:109-126 | an allocator that can give the larger sample count in the larger format never makes a write fail |
| Resample.ContractCanBeMet | components/av_render/src/audio_resample.c:135-150 | for every output format and rate bound there are converters that meet the size contract |
| Resample.FoldPositive | components/av_render/src/audio_resample.c:163-198 | between two formats with samples of positive size every format on the way has one |
| Resample.WholeSamplesFit | components/av_render/src/audio_resample.c:228 | the whole samples of a frame are within the frame |
| Resample.Resampler.SortOps | components/av_render/src/audio_resample.c:97-107 | the array holds the plan, then nothing |
| Resample.Resampler.AddBits | components/av_render/src/audio_resample.c:83-95 | adds the bit and rate converters of the plan from the next free entry on |
| Resample.Resampler.OpenConverters | components/av_render/src/audio_resample.c:152-205 | each converter is opened with the format the ones before it produce |
| Resample.Resampler.AllocWorkBuf | components/av_render/src/audio_resample.c:109-126 | takes the first free buffer, grown if needed; fails iff both are used or the allocator gives up |
| Resample.Resampler.RunStep | components/av_render/src/audio_resample.c:233-257 | a converter gets the format it was opened with, reads one buffer and writes the other, and the buffer it read is free afterwards |
| Resample.Resampler.Write | components/av_render/src/audio_resample.c:217-265 | the result is the end of a chain of all planned converters over the whole samples, rateOut(n) or n samples long in the output format; equal formats and empty frames pass through; two buffers suffice, both free on return; only the allocator can make it fail |
| CredentialModel.ShiftedFull | solutions/common/network_storage.c:108-156 | in a full store the slots move down by one with names and passwords together |
| CredentialModel.SaveKeepsInv | solutions/common/network_storage.c:43-175 | names stay pairwise distinct and whole, and the saved network is readable with its password |
| CredentialModel.SaveDropsOnlyOldest | solutions/common/network_storage.c:59-175 | saving costs another network its place iff the name is new, the store is full and the other sits in slot 0; all others keep their passwords |
| CredentialModel.DeleteKeepsInv | solutions/common/network_storage.c:206-270 | deletes iff the name is stored; afterwards it is in no slot, and every other slot is as before |
| CredentialModel.RunKeepsInv | solutions/common/network_storage.c:43-396 | over every run of saves and deletes names stay distinct and entries whole |
| CredentialModel.SavedReadableIff | solutions/common/network_storage.c:177-204 | what was saved can be read back iff the name is at most 32 and the password at most 64 characters long |
| CredentialModel.SaveRefinesList | solutions/common/network_storage.c:43-175 | on a store that holds a list from slot 0 on, saving is saving into that list |
| CredentialModel.RunRefinesList | solutions/common/network_storage.c:43-175 | so is every run of saves |
| CredentialModel.SlotsAreLastThree | solutions/common/network_storage.c:108-175 | the list's names are the last three that were new when saved, in order |
| CredentialModel.PasswordsAreLatest | solutions/common/network_storage.c:59-80 | each listed network carries the password saved last for its name |
| CredentialModel.StoreIsLastThree | solutions/common/network_storage.c:43-175 | from an empty store, in runs of saves, the slots are exactly the last three distinct names in order with their latest passwords |
| CredentialStore.Storage.SaveCredentials | solutions/common/network_storage.c:43-175 | the three slot loops, in place, do what the save function says |
| CredentialStore.Storage.GetSaved | solutions/common/network_storage.c:177-204 | finds a slot iff both strings are there and fit |
| CredentialStore.Storage.DeleteBySsid | solutions/common/network_storage.c:206-270 | the search loop erases the first slot with the name |
| CredentialStore.Storage.DeleteAll | solutions/common/network_storage.c:329-396 | leaves no slot |

## Left out

- DataQueues.DataQueue.GetBuffer: one pass of the wait loop; waiting is returned as an outcome, and its interleaving is in DataQueueSync.
- DataQueues.DataQueue.ReadLock: one pass of the wait loop, likewise.
- DataQueueSync.WriterIsServed: with drains, for blocks smaller than the buffer, since a drain crashes on one that fills it (`ConsumeAllIff`).
- DataQueueSync.NoLostWakeup: one reader, which also does the draining, and one writer, without quitting or the third event bit; the queue's wakeup and deinit races and several readers are not modelled.
- DataQueueRuns.RunRefinesFifo: assumes the callers' discipline named in `Legal` (unlock only after lock, drain only with nothing locked and no block that fills the buffer); `ConsumeAllIff` and `FreeKeepsTilingIff` say what happens outside it.
- Sizes are not negative and their sums do not overflow a C int; reading a header at an unaligned address is not modelled.
- `data_queue_get_write_data`, which only returns the write pointer.
- ShareQueueRuns.ExactlyOnceInOrder: one producer, distinct live frames, users give back in the order received, and orderly runs; `ExactlyOnceIff` says what happens in all others.
- ShareQueues.ShareQueue.Add: a full ring makes it return, where the source waits on a condition and goes on as `AddWhenRoom`; a failing message queue send is not modelled (`SendHasRoom` shows there is room).
- ShareQueues.ShareQueue.Enable: runs its switch and its drain without interruption; interleaved they are `Switch` and `DrainPass`, and the runs treat them so.
- `share_q_recv_all` and `share_q_destroy`; the message queues are bounded first-in first-out lists, their own code is not part of this model.
- ShareQueueMuxer.CommonDrainKeepsInvIff: the stop command as a message of the common queue.
- MemHistoryModel.RunConserves: the hooks exclude each other, as their mutex does; the final flush reads the partial slice in one step; a run ends when the saver is done, because the object is then freed. The race on the `running` flag at start-up and short file writes are not modelled.
- The layout of memory-history records; they are byte strings here. The statistics of `media_lib_mem_trace.c`.
- CfgParse.ParseCfg: watched for a given number of rounds, since the source's loop need not end. Which codec lines are refused for their attributes is left open; the meaning of attributes and the search for a board's section are not modelled. What is read behind the text is the outcome `OffTheEnd`. Allocation does not fail.
- ColorConvert.Converter.ConvertColor: odd widths and heights.
- FramingRuns.FramesArriveAsPut: the queue's buffer does not wrap round 2^32, headers are those of 32-bit pointers, and a decoder reports no more bytes than it asked for.
- The lifecycles, decoders and threads around the framing functions.
- PauseHandshake.HandshakeExcludes: control calls do not overlap each other; signalling closed by the peer, which disconnects without pausing, and the peer library are not modelled.
- Resample.Resampler.Write: converters are functions of their input with a size contract, input and output samples take at least one byte, and errors on opening converters are not modelled.
- CredentialModel.RunKeepsInv: the key-value store does not fail and loses nothing between runs; listing all names as text is not modelled.
- Drivers, board bring-up, TLS, SRTP, signalling, networking and logging.
