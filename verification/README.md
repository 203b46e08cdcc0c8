# XDP for Windows: a verified model

XDP for Windows moves packets between NIC queues and AF_XDP sockets. This project models its data
path, its wait protocol, its offload control path and three runtime components in Dafny, and proves
what they promise for every input, every split of a frame, every interleaving and every run.

How the modules relate to the system:

- **Rings.** `Words` has 32-bit index arithmetic, `Options` optional values; `Ring` is the shared ring with free-running indexes
  and stale cached copies, held to a bounded queue whose free slots rotate.
- **TX.** `TxLedger` keeps the books of a TX queue over its sockets; `TxQueue` is the in-order data
  path that keeps them, with the driver, the applications and closing sockets interfering inside
  every loop; `ClientList` is the circular client list and its fill entry; `Umem` and `Bounce` are
  chunks, bounce buffers and the per-chunk tracker, and `BounceQueue` runs them in step with the queue.
- **Waiting.** `Notify` is the race between a waiter, two producers, cancellation and cleanup.
- **Inspection.** `Frames`, `Headers`, `Rules` and `FrameCache` are frames in fragments, headers on
  flat bytes, rules on headers, and the lazy cache in between; `Inspect` is the rule engine, `Forward`
  the in-place address swap; `SplitFrames` says exactly when splitting a frame is invisible.
- **RX.** `Receive` specifies landing in UMEM chunks and the two ways in; `Batches` says exactly when the
  two agree; `RxPath` is the code for one target, `Redirects` the batching for several.
- **Control and runtime.** `Qeo` and `QeoRuns` (QUIC connection offloads), `OffloadObjects` (teardown from two ends),
  `Timer`, `WorkQueue` and `ExtensionLayout`.

Conventions. Code under a lock is one method or one step; unlocked reads and interlocked exchanges
are steps of their own; steps are sequentially consistent. Rings that another module relies on are
seen as streams with consumer counters, which `Ring` justifies. Clocks, the driver and allocation
failures are parameters or nondeterministic choices. Sums of header offsets, and outstanding plus
posted counts, are taken not to exceed 32 bits, as ring and buffer allocations bound them. The ICMP
header is taken as the four bytes of RFC 792 and RFC 4443.

Six promises turn out not to hold everywhere, and are stated with their exact conditions and an input
beyond them:

- A split frame is judged like its flat bytes by every program if and only if it avoids three corners
  (`SplitFrames.SplitInvisibleExactly`): a TCP data offset below 5, a long QUIC header that outgrows
  the header storage, and an ICMP echo reply, each with its header across buffers.
- Redirect batches of 32 and one exclusive batch receive alike, whatever the frames, if and only if in
  every batch the invalid fill descriptors come last and no RX slot saved by one takes a further fill
  (`Batches.BatchesAgreeExactly`); valid fills always do.
- A layout that is reported as assigned is sound if and only if the base offset fits 16 bits or nothing
  is enabled (`ExtensionLayout.LaidOutExactly`); beyond that a 32-bit offset can wrap.
- A failed QEO call leaves connections exactly as before if and only if each one it tried to remove had
  been added with the plain success code (`Qeo.FailureIsExact`).
- A waiting work queue shutdown returns with everything delivered, and is signaled once and while it waits,
  unless an insert found the work item idle after shutdown began (`WorkQueue.WorkQueue.EndShutdown`,
  `WorkQueue.WorkQueue.SetShutdownEvent`). After any such insert it can return with the entry still queued
  (`WorkQueue.IdleInsertTells`), and its event can be set after it has returned (`WorkQueue.StaleSignal`).
- An accepted bounced frame carries the application's bytes, whatever these are, if and only if nothing of its
  chunk was in flight (`Bounce.CarriesExactly`). While anything of the chunk is, an application that writes
  one byte before it posts has a frame accepted without its bytes (`Bounce.TxBounce.BusyChunkTells`;
  `Bounce.SecondFrameLost` is a run from the start).

## Model

| member | source | states |
|---|---|---|
| Ring.StaleFreeSlots | src/xdp/xsk.c:436-446 | free slots computed from a stale consumer index, modulo 2^32, are some of the slots that are really free |
| Ring.StaleFilledSlots | src/xdp/xsk.c:471-478 | filled slots computed from a stale producer index are some of those really filled |
| Ring.LiveSlotsDistinct | published/external/afxdp_helper.h:51-57 | masked indexes of a live window name distinct slots for every power-of-two size, across index wraparound |
| Ring.RotationWrite | src/xdp/xsk.c:502-510 | writing a granted slot changes that free slot of the queue and no queued element |
| Ring.RotationSubmit | src/xdp/xsk.c:483-489 | advancing the producer appends exactly the granted slots' contents |
| Ring.RotationRelease | src/xdp/xsk.c:493-499 | advancing the consumer removes the oldest elements and makes their slots the last free ones |
| Ring.Ring.ProdReserve | src/xdp/xsk.c:425-447 | the kernel producer is granted min(count, really free slots), whatever its cached copy says |
| Ring.Ring.ProdIsEmpty | src/xdp/xsk.c:451-456 | true exactly when nothing is queued |
| Ring.Ring.ConsPeek | src/xdp/xsk.c:460-479 | the kernel consumer is shown min(count, queued elements) |
| Ring.Ring.ProducerReserve | published/external/afxdp_helper.h:102-120 | the user producer is granted min(count, really free slots), from the producer index on |
| Ring.Ring.ConsumerReserve | published/external/afxdp_helper.h:70-88 | the user consumer is shown min(count, queued elements), from the consumer index on |
| Ring.Ring.Write | published/external/afxdp_helper.h:51-57 | writing element k past the producer index writes the k-th free slot of the queue |
| Ring.Ring.Read | published/external/afxdp_helper.h:51-57 | element k past the consumer index is the k-th queued element |
| Ring.Ring.ProdSubmit | src/xdp/xsk.c:483-489 | submission does to the ring what it does to the queue |
| Ring.Ring.ConsRelease | src/xdp/xsk.c:493-499 | release does to the ring what it does to the queue |
| Ring.FirstInFirstOut | src/xdp/xsk.c:423-499 | over every run, queued plus submitted elements are released plus still queued ones, once each and in order |
| Ring.Run | published/external/afxdp_helper.h:70-130 | every interleaving of both ends, with the kernel's or the user's operations at either, changes and answers as the bounded queue does, elements read included |
| ClientList.WalkStep | src/xdp/tx.c:184-190 | following links returns to the first entry after the whole circle and not before |
| ClientList.PassedDistinct | src/xdp/tx.c:169-189 | one time round visits no client twice |
| ClientList.WithoutKeeps | src/xdp/tx.c:1429-1430 | unlinking removes one client and keeps the others |
| ClientList.FlinkLeaves | src/xdp/tx.c:1425-1427 | the fill entry moved off a removed client is still on the list |
| ClientList.EveryClientReached | src/xdp/tx.c:153-194 | with n clients, any n fills in a row that each pass something reach every client |
| TxLedger.BalancedMeans | src/xdp/xsk.c:741-759 | balanced books: completions are a prefix of accepted addresses in posting order, taken = invalid + completed + outstanding, a completion slot for every outstanding frame, and no frame of a run-down socket in the ring |
| TxLedger.OutstandingTotal | src/xdp/xsk.c:922-931 | the sockets' outstanding counts add up to the frames in the shared ring |
| TxLedger.Enqueued | src/xdp/xsk.c:825-923 | turning an accepted descriptor into a frame keeps every socket's books |
| TxLedger.Rejected | src/xdp/xsk.c:834-855 | dropping an invalid descriptor keeps the books and counts it |
| TxLedger.Completed | src/xdp/xsk.c:1059-1102 | turning the oldest frame into a completion keeps every socket's books |
| TxLedger.DriftInv | src/xdp/xsk.c:763-942 | applications posting and reaping, and owners closing, keep the books |
| TxLedger.ServedEvolves | src/xdp/xsk.c:763-942 | a visit with a free frame slot takes descriptors of a ready active socket, and no socket loses readiness or goes back |
| TxLedger.WorkedOn | src/xdp/tx.c:169-189 | work done on earlier clients of the circle is not undone by later visits |
| TxQueue.FrameRing.Available | src/xdp/tx.c:157-163 | wrapped index arithmetic gives the free frame slots |
| TxQueue.FrameRing.Produce | src/xdp/xsk.c:825-922 | a frame is appended to those pending |
| TxQueue.FrameRing.HasCompleted | src/xdp/tx.c:119 | tells whether the driver has passed frames that are not completed |
| TxQueue.FrameRing.Oldest | src/xdp/xsk.c:1060 | the reserved index finds the oldest pending frame |
| TxQueue.FrameRing.Retire | src/xdp/xsk.c:1102 | advancing the reserved index removes the oldest pending frame |
| TxQueue.TxQueue.GetAvailableTxCompletion | src/xdp/xsk.c:741-759 | the slots kept back for outstanding frames are always there; the rest are what is returned |
| TxQueue.TxQueue.FillTx | src/xdp/xsk.c:763-942 | takes min(frame slots, posted, spare completion slots) descriptors of an active socket, accepts exactly the valid ones in order, and leaves other sockets to their own doings |
| TxQueue.TxQueue.FillTxCompletion | src/xdp/xsk.c:1044-1134 | the run of the socket's frames at the ring's front becomes its next completions, in order; a closing socket with nothing outstanding is signaled |
| TxQueue.TxQueue.DatapathComplete | src/xdp/tx.c:102-128 | everything the driver has passed is completed, and the loop ends |
| TxQueue.TxQueue.DatapathFill | src/xdp/tx.c:153-194 | ends with the circle closed or the frame ring full; visits a stretch of the circle once; every visited socket that had a posted descriptor and a spare completion slot, and is active throughout, has descriptors taken |
| TxQueue.TxQueue.FlushTransmit | src/xdp/tx.c:198-214 | a flush completes at least what the driver had passed when it began, keeps the books, and works for every ready client it visits, moving on if there was room |
| TxQueue.TxQueue.FlushRepeatedly | src/xdp/tx.c:153-214 | flushing stops early only at a full frame ring; as many flushes as there are stable clients visit every client, and each one visited that was ready gets on |
| TxQueue.TxQueue.AddDatapathClient | src/xdp/tx.c:1365-1374 | the client goes to the tail and the list stays sound |
| TxQueue.TxQueue.CompleteRundown | src/xdp/xsk.c:971-980 | a closing socket is signaled exactly when nothing of it is outstanding |
| TxQueue.TxQueue.RemoveDatapathClient | src/xdp/tx.c:1416-1431 | after the flush-complete event no frame in the ring carries the removed client, and the fill entry stays on the list |
| TxQueue.Run | src/xdp/xsk.c:2253-2284 | over every run: completions are accepted addresses once each in posting order, descriptors are conserved, outstanding counts fit the ring and the completion slots, and the flush-complete event stays true |
| Umem.Register | src/xdp/xsk.c:3383-3445 | a registered region is a positive number of whole chunks with its headroom inside one, short of the request by less than a chunk |
| Umem.ChunkOfIsQuotient | src/xdp/xsk.c:598 | the chunk index is the quotient of address and chunk size |
| Umem.ChunkInBounds | src/xdp/xsk.c:623-631 | a chunk index of an accepted address is inside the tracker |
| Bounce.RecoverDescribe | src/xdp/xsk.c:1075-1093 | completion recovers the posted base address in virtual, logical and MDL form |
| Bounce.TracksAdd | src/xdp/xsk.c:623-631 | incrementing a tracker entry keeps every entry equal to its chunk's frames in flight |
| Bounce.TracksDrop | src/xdp/xsk.c:598-599 | decrementing does too, and never goes below zero |
| Bounce.FrozenCopy | src/xdp/xsk.c:631-641 | copying into an idle chunk changes no chunk that has frames in flight |
| Bounce.TxBounce.BounceBuffer | src/xdp/xsk.c:605-645 | accepts exactly buffers inside one chunk; refreshes the frame's range of the bounce copy exactly if nothing of its chunk is in flight, and then the frame carries the application's bytes; each frame in flight keeps seeing its chunk as when it was accepted |
| Bounce.CarriesExactly | src/xdp/xsk.c:631-641 | for any bounce copy: a frame carries the application's bytes for every content of its memory if and only if nothing of the chunk was in flight |
| Bounce.TxBounce.BusyChunkTells | src/xdp/xsk.c:631-641 | with anything of its chunk in flight, any acceptable descriptor can be accepted without carrying the application's bytes |
| Bounce.SecondFrameLost | src/xdp/xsk.c:631-641 | a run from the start: of two frames at different offsets of one chunk, the second sends other bytes |
| Bounce.TxBounce.ReleaseBounceBuffer | src/xdp/xsk.c:583-600 | releases one frame of a chunk and keeps the tracker and the frozen bytes |
| Bounce.TxBounce.Enqueue | src/xdp/xsk.c:828-872 | a descriptor is accepted exactly if it is valid, the frame describes it, and its bytes are secured as above |
| Bounce.TxBounce.Complete | src/xdp/xsk.c:1075-1100 | any frame in flight completes to its posted base address |
| Bounce.TxBounce.ApplicationWrites | src/xdp/xsk.c:631-641 | an application's writes change no frame in flight |
| BounceQueue.HeldTagged | src/xdp/xsk.c:922-931 | the descriptors accepted and not completed, by the queue's ledger, are the socket's frames in the ring, in ring order, as many as are outstanding |
| BounceQueue.Sender.TrackerCounts | src/xdp/xsk.c:623-631 | beside a TX queue, each tracker entry is the number of the socket's frames in the queue's ring based in that chunk, and the ledger's outstanding count is the number in flight |
| BounceQueue.Sender.FillTx | src/xdp/xsk.c:763-942 | through a whole fill, with everybody else interfering, a descriptor is bounced exactly if it goes into the ring, so what is held stays what the ledger has in flight |
| BounceQueue.Sender.OtherFills | src/xdp/xsk.c:763-942 | filling from another socket leaves the socket's descriptors in flight and its tracker alone |
| BounceQueue.Sender.FillTxCompletion | src/xdp/xsk.c:1044-1134 | the addresses recovered from the buffers of the socket's frames at the ring's front are the posted ones and its next completions, and exactly their chunks are let go |
| BounceQueue.Sender.Run | src/xdp/xsk.c:583-645 | over every run of the queue, the tracker counts exactly the socket's frames in the ring, by chunk |
| Notify.SignalWakes | src/xdp/xsk.c:385-421 | a signal that finds its flag waited for leaves no sleeper; any other does nothing |
| Notify.StepKeeps | src/xdp/xsk.c:5523-5713 | every step of a notify call, a producer, a cancellation or cleanup keeps the protocol invariant |
| Notify.RunKeeps | src/xdp/xsk.c:5523-5713 | the invariant holds in every reachable state |
| Notify.CompletedOnce | src/xdp/xsk.c:5587-5639 | no pended IRP is completed twice, and one not completed is parked or in exactly one pair of hands |
| Notify.CleanupEmpties | src/xdp/xsk.c:1989-2030 | after cleanup no IRP is parked, those not completed are being completed, and a blocked thread has been woken |
| Notify.NoLostWakeup | src/xdp/xsk.c:1122-1130 | a sleeper whose ring is non-empty has that ring's producer on its way to signal it |
| Notify.ProducerDelivers | src/xdp/xsk.c:5922-5930 | every further step of that producer brings the signal nearer or wakes the sleeper |
| Frames.GetContiguousHeaderLength | src/xdp/programinspect.c:34-87 | returns the frame's flat bytes at the cursor, as many as asked for and there are, for every split and with empty buffers |
| Frames.GetContiguousHeader | src/xdp/programinspect.c:92-111 | succeeds exactly if the frame holds the whole header |
| Headers.LayersNest | src/xdp/programinspect.c:506-617 | on flat bytes, each header found is announced by the one before it and payloads are suffixes of the frame |
| Rules.DecideFirst | src/xdp/programinspect.c:1027-1477 | the first rule whose condition holds decides, and no match passes |
| FrameCache.ParseContiguous | src/xdp/programinspect.c:519-607 | the pass over the first buffer either settles the layers or stops before a header that buffer lacks |
| FrameCache.ParseFragmentedTcp | src/xdp/programinspect.c:358-398 | reading TCP through fragments settles the layers, refusing data offsets below 5 |
| FrameCache.ParseFragmentedFrame | src/xdp/programinspect.c:402-502 | reading on through fragments settles the layers from wherever the first buffer ran out |
| FrameCache.ParseFrame | src/xdp/programinspect.c:506-617 | the cache ends up showing the layers of the split frame, a function of the frame alone |
| Inspect.ParseQuicHeaderPayload | src/xdp/programinspect.c:695-742 | reads the QUIC header of contiguous bytes and asks for more exactly when more could matter |
| Inspect.ParseQuicHeader | src/xdp/programinspect.c:746-820 | the cache shows the QUIC connection ID of the flat payload, unless it is long, oversized and split |
| Inspect.ParseInnerIpHeaderPayload | src/xdp/programinspect.c:825-854 | reads the inner IP header of contiguous bytes |
| Inspect.ParseInnerIpHeader | src/xdp/programinspect.c:858-944 | the cache shows the inner IP header of the flat payload, for every split |
| Inspect.ParseIcmpHeader | src/xdp/programinspect.c:241-354 | the cache shows the ICMP header of the flat payload, unless it straddles buffers under any but the IP-in-IP protocols |
| Inspect.UdpTupleMatch | src/xdp/programinspect.c:649-670 | compares ports and addresses of the kind the frame has |
| Inspect.QuicCidMatch | src/xdp/programinspect.c:674-690 | compares the wanted part of the connection ID of the wanted header form |
| Inspect.MatchQuic | src/xdp/programinspect.c:1144-1170 | QUIC rules match the frame's facts whatever is cached |
| Inspect.MatchInner | src/xdp/programinspect.c:1091-1142 | inner-IP rules match the frame's facts whatever is cached |
| Inspect.MatchIcmp | src/xdp/programinspect.c:1329-1383 | ICMP rules match the frame's facts whatever is cached |
| Inspect.MatchRule | src/xdp/programinspect.c:1034-1388 | every rule matches the frame's facts whatever earlier rules cached, and keeps the cache in agreement with them |
| Inspect.Inspect | src/xdp/programinspect.c:1002-1477 | the verdict is that of the first rule that matches the frame's facts; only a forwarded frame changes, and only in its addresses |
| Forward.CopyMemoryToFrame | src/xdp/programinspect.c:115-156 | writes data over the front of the flat bytes, for every split, and nothing else |
| Forward.SwapAddresses | src/xdp/programinspect.c:958-998 | the flat bytes change by an exchange of the Ethernet addresses, whether or not the header straddles buffers |
| Forward.SwappedTwice | src/xdp/programinspect.c:983-985 | the exchange undoes itself |
| SplitFrames.SplitInvisibleExactly | src/xdp/programinspect.c:1002-1477 | for every limit on connection IDs: every program judges the split frame like its flat bytes if and only if the split avoids the three corners |
| SplitFrames.WholeFrameIsSafe | src/xdp/programinspect.c:519-607 | a frame in one buffer is always judged by its flat bytes |
| SplitFrames.ShortTcpExample | src/xdp/programinspect.c:379-382 | a frame with TCP data offset zero in its fragment that some program tells from its flat bytes |
| SplitFrames.QuicCidExample | src/xdp/programinspect.c:773-779 | for every limit below 255, a frame with a long QUIC header past the storage that some program tells from its flat bytes |
| SplitFrames.QuicCornerExactly | src/xdp/programinspect.h:54-58 | the QUIC corner exists exactly for storage limits below 255, the built-in 20 among them |
| SplitFrames.EchoReplyExample | src/xdp/programinspect.c:263-273 | a frame with an ICMP echo reply in its fragment that some program tells from its flat bytes |
| Receive.LandsInChunk | src/xdp/xsk.c:5778-5837 | writes stay in the chunk past the headroom, the longest prefix that fits is stored, its length is announced, and one truncation is counted exactly if bytes are lost |
| Receive.ExclusiveIsOneByOne | src/xdp/xsk.c:5963-6014 | with valid fills, an exclusive batch delivers frame by frame while there is room and then drops |
| Receive.ExclusiveConserves | src/xdp/xsk.c:5963-6014 | every frame is delivered or counted as dropped, every delivery takes one RX slot, and the fills taken are the first ones, each in one new RX descriptor in order or counted as invalid |
| Receive.InBatchesConserves | src/xdp/redirect.c:30-81 | the same over any number of redirect batches, valid fills or not |
| Batches.BatchesAgreeExactly | src/xdp/redirect.c:45-81 | for any socket and any number of frames: redirect batches of 32 and one exclusive batch leave the same memory, rings and statistics for all frames if and only if, batch by batch, invalid fills come last and no saved slot takes a further fill |
| Batches.UnmatchedTells | src/xdp/xsk.c:5935-5960 | whenever that guard fails there are frames on which the paths differ |
| Batches.ValidMatched | src/xdp/xsk.c:5778-5785 | valid fills satisfy the guard, whatever the room and the number of frames |
| Batches.InvalidFillExample | src/xdp/xsk.c:5778-5785 | a batch on which the two paths differ |
| RxPath.FrameOfMasked | src/xdp/xsk.c:5805 | masking a fragment index beforehand or not finds the same fragments |
| RxPath.RxSocket.ReceiveSingleFrame | src/xdp/xsk.c:5750-5890 | a frame in any number of buffers lands as its flat bytes |
| RxPath.RxSocket.ReceiveSubmitBatch | src/xdp/xsk.c:5894-5932 | once the fills of a batch are placed, publishing it balances frames (delivered or dropped), RX slots and fill descriptors |
| RxPath.RxQueue.ReceiveBatchedExclusive | src/xdp/xsk.c:5963-6014 | an attached socket bound to the queue takes the whole ring and every action is DROP; a detached one declines and changes nothing |
| RxPath.RxQueue.XskReceive | src/xdp/xsk.c:5935-5960 | a redirect batch lands as specified, or not at all on a socket that is detached or bound to another queue |
| RxPath.RxQueue.Redirect | src/xdp/redirect.c:45-81 | for one target, pending a frame, flushing a full batch first, does not change where all frames end up |
| RxPath.RxQueue.FlushRedirect | src/xdp/redirect.c:30-41 | what is pended is delivered and nothing stays pended |
| RxPath.RxQueue.ReceiveBatch | src/xdp/rx.c:212-259 | inspecting the ring and flushing delivers its frames in batches of 32 and marks every action |
| RxPath.RxQueue.ReceiveXskExclusiveBatch | src/xdp/rx.c:328-350 | the exclusive receive takes the whole ring as one batch, and under the guard leaves what the common path would |
| Redirects.PassedFlush | src/xdp/redirect.c:10-25 | flushing a batch moves exactly its pending frames into its socket |
| Redirects.RedirectContext.Redirect | src/xdp/redirect.c:45-81 | with several targets, a batch that is full or for another target is flushed first, and every socket stays where its own frames have put it |
| Redirects.RedirectContext.RedirectAll | src/xdp/rx.c:212-259 | however targets alternate, every attached socket conserves its own frames, slots and fills, with valid fills receives its frames one by one in order, and a detached one is left alone |
| Qeo.QuietMeansAdded | src/xdp/offloadqeo.c:282-307 | with no call in flight every connection is added |
| Qeo.OneOwner | src/xdp/offloadqeo.c:183-237 | an adding or removing connection belongs to exactly one call in flight |
| Qeo.Offloads.FindOffloadedConnection | src/xdp/offloadqeo.c:48-66 | finds the connection of a key if there is one |
| Qeo.Offloads.Begin | src/xdp/offloadqeo.c:145-244 | a request is marked as a whole with the status its elements call for in order, or rolled back as a whole |
| Qeo.Offloads.Finish | src/xdp/offloadqeo.c:263-308 | each connection of the call, and no other, is settled by the call's and its own result; the list keeps its order |
| Qeo.Offloads.RevertSettings | src/xdp/offloadqeo.c:336-408 | with no call in flight, reverting in batches ends with nothing left |
| Qeo.FailureRollsBack | src/xdp/offloadqeo.c:263-308 | a failed call leaves the same connections in the same order |
| Qeo.FailureIsExact | src/xdp/offloadqeo.c:292-299 | they are identical if and only if each one it tried to remove had the plain success code |
| Qeo.BeginLeavesOthers | src/xdp/offloadqeo.c:183-227 | beginning a call touches no connection of another call in flight |
| Qeo.FinishLeavesOthers | src/xdp/offloadqeo.c:268-308 | nor does ending one |
| QeoRuns.EventLeaves | src/xdp/offloadqeo.c:183-308 | no event of another call or of the driver changes a call's list or its connections, but for the status the driver reports |
| QeoRuns.CallUndisturbed | src/xdp/offloadqeo.c:245-266 | over every run from a call's first half on, its connections keep everything but the status, which is the driver's last report on them |
| QeoRuns.CallOutcome | src/xdp/offloadqeo.c:145-308 | over every run from a call's beginning to its end, under any interleaving: its additions stay and its removals go exactly if the call and their own last report are good; otherwise additions are gone and removals are back as before the call, with the plain success code; other connections are left alone |
| QeoRuns.RunAll | src/xdp/offloadqeo.c:145-308 | whatever order threads take the locked blocks in, the states passed are such a run |
| QeoRuns.FailedRemovalLoses | src/xdp/offloadqeo.c:292-299 | a run of the entry points: a connection added with success code 1, whose removal fails, ends with code 0 |
| OffloadObjects.StepKeeps | src/xdp/bind.c:807-924 | every step of opening, downcalls, closing and deletion keeps the invariant |
| OffloadObjects.OnceEach | src/xdp/bind.c:807-829 | each handle is reverted once, then closed once, and each object is freed once, when nobody holds it |
| OffloadObjects.DowncallsSeeHandle | src/xdp/bind.c:998-1030 | a downcall under rundown protection has an open handle and a live object |
| OffloadObjects.CleanupSeesHandle | src/xdp/bind.c:1033-1070 | so has a revert or close by either thread, and the two never clean up the same object |
| OffloadObjects.EventHasPlace | src/xdp/bind.c:762-770 | the last offload reference goes only when there is an event to set |
| OffloadObjects.DeletionWaits | src/xdp/bind.c:1272-1333 | deletion returns only after every handle ever opened is reverted and closed, and none can be opened later |
| Timer.StepKeeps | src/rtl/xdptimer.c:130-386 | every step of starting, canceling, expiring, working and shutting down keeps the invariant |
| Timer.FlagsTell | src/rtl/xdptimer.c:145-172 | the two flags are never both set, one cancel event at most is registered, and the work item is queued only when it is off the queue |
| Timer.CanceledNeverRuns | src/rtl/xdptimer.c:345-386 | a start reported canceled never runs its routine, and no start runs it twice |
| Timer.FreedLast | src/rtl/xdptimer.c:43-63 | memory is freed once, exactly when owner, callback and every worker have released it, and a waiting shutdown is let go exactly then |
| Timer.FreedIsOver | src/rtl/xdptimer.c:254-301 | nothing can happen to a freed timer |
| WorkQueue.LinkLast | src/rtl/xdpworkqueue.c:229-231 | following the tail appends to the linked list |
| WorkQueue.InsertedAccounted | src/rtl/xdpworkqueue.c:196-235 | an insert keeps the queue's accounts |
| WorkQueue.WorkQueue.Insert | src/rtl/xdpworkqueue.c:180-236 | the entry goes behind all others; the tail is followed only while its entry is queued; an idle queue is scheduled once |
| WorkQueue.WorkQueue.TakeBatch | src/rtl/xdpworkqueue.c:260-277 | the routine gets everything queued, in order, and one routine runs at a time |
| WorkQueue.WorkQueue.LookForMore | src/rtl/xdpworkqueue.c:283-297 | the work item goes on exactly while something is queued |
| WorkQueue.WorkQueue.SetShutdownEvent | src/rtl/xdpworkqueue.c:291-297 | unless an insert found the work item idle after shutdown began, the shutdown whose event is set still waits, and is signaled this once |
| WorkQueue.WorkQueue.BeginShutdown | src/rtl/xdpworkqueue.c:132-158 | a waiting shutdown waits exactly if the work item is at work |
| WorkQueue.WorkQueue.WaitOver | src/rtl/xdpworkqueue.c:156-158 | unless an insert found the work item idle after shutdown began, a wait ends with everything delivered and nothing in progress |
| WorkQueue.WorkQueue.EndShutdown | src/rtl/xdpworkqueue.c:161 | the same when shutdown returns, and when it frees the queue |
| WorkQueue.WorkQueue.EndWorkItem | src/rtl/xdpworkqueue.c:116-127 | a work item that frees the queue leaves nothing queued or in progress |
| WorkQueue.IdleInsertTells | src/rtl/xdpworkqueue.c:197-208 | from any queue whose waiting shutdown has not returned, an insert that finds the work item idle can be queued when it returns |
| WorkQueue.StaleSignal | src/rtl/xdpworkqueue.c:152-158 | after any such insert to a queue whose shutdown waited, a work item can be about to set the event of a shutdown that has returned |
| WorkQueue.StaleSignalRun | src/rtl/xdpworkqueue.c:152-158 | a run from the start to that point |
| WorkQueue.LateInsert | src/rtl/xdpworkqueue.c:291-297 | a run from the start in which that happens |
| ExtensionLayout.InitialAlignmentHolds | src/xdp/extensionset.c:100-107 | the alignment cut to eight bits is none, or one the offset really has |
| ExtensionLayout.PlaceKeeps | src/xdp/extensionset.c:149-156 | placing an extension at an aligned offset keeps all ranges aligned, apart and behind the base |
| ExtensionLayout.SortByAlignment | src/xdp/extensionset.c:117-119 | the entries are a permutation with falling alignment |
| ExtensionLayout.LaidOutExactly | src/xdp/extensionset.c:160-162 | a finished layout is aligned, disjoint, behind the base and inside a size that suits every alignment if and only if the base fits 16 bits or nothing is enabled |
| ExtensionLayout.ExtensionSet.AssignLayout | src/xdp/extensionset.c:86-165 | succeeds exactly if both passes over the sorted extensions find room, and then has their offsets, size and alignment; success is sound exactly under that condition, failure resets, and a layout that surely fits does not fail |
| ExtensionLayout.ExtensionSet.ResetLayout | src/xdp/extensionset.c:168-180 | nothing is placed and nothing else changes |
| ExtensionLayout.ExtensionSet.GetExtension | src/xdp/extensionset.c:267-285 | the offset given to a name is found wherever sorting has moved its entry |
| ExtensionLayout.WrappedExample | src/xdp/extensionset.c:131-142 | a layout assigned behind base 2^32 - 1 that has an extension at offset zero |

## Left out

- Out-of-order TX completion: only the in-order mode, where the driver advances the consumer index, is modeled.
- The NEED_POKE flag, poll modes and ideal-processor hints: their guarantees depend on when the driver calls back.
- Weak memory ordering: steps are sequentially consistent at the acquire and release points.
- eBPF programs, map lookups, program validation and rule concatenation.
- Frame metadata extensions (checksum, layout, timestamp, original length) on both paths.
- The query for ready I/O updating a cached ring index: the wait protocol sees rings as empty or not.
- IRP and IOCTL plumbing, input buffer parsing, DMA and MDL mapping, tracing and performance counters.
- Linked lists other than the work queue's: client, connection and object lists are sequences or sets, so link fields and aliasing are not captured.
- The library sort behind the extension layout: any sort by falling alignment, on a sequence rather than in place.
- Header storage is a value, not shared memory: a header copied to storage cannot be overwritten by a later read.
- Reference counts of interface sets, and a rundown of the runtime library shared by timers and work queues.
- WorkQueue.WorkQueue.WaitOver: promises an idle queue only if no insert found the work item idle after shutdown began, because such an insert can still be queued (WorkQueue.IdleInsertTells).
- RxPath.RxQueue.Redirect: has one target; the flush on a change of target is in Redirects.RedirectContext.Redirect, over sockets as values with a UMEM each.
- Receive.ExclusiveIsOneByOne: requires valid fills, because frame-by-frame delivery has no say on invalid ones; conservation and Batches.BatchesAgreeExactly cover those.
- OffloadObjects.DowncallsSeeHandle: assumes that an owner does not use a handle while closing it, as the file object guarantees.
