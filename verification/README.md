# PS2 I/O processor drivers: a verified model

This project models the firmware of the PlayStation 2's I/O processor that drives the network adaptor and the hard
disk, and proves what its drivers promise each other. Every step of the original runs with interrupts off, so its
behaviour is a sequence of atomic steps over shared state; the model is exactly that.

| layer | files |
|---|---|
| the DMA queue that all drivers share (`dev9_dma.c`) | `DmaQueue`, `DmaShare` (one client's share of it), `Dev9Dma` (the 32-slot ring) |
| the Ethernet chip's buffer descriptors (`smap.h`) | `SmapBd` |
| sending Ethernet frames (`smap.c`, `smap_dma.c`, `main.c`) | `SmapTx`, `TxRing`, `TxInvariant`, `TxPipeline`, `TxLimits`, `TxFailures`, `TxEffects`, `TxProgress`, and the classes `SmapDriver`, `SmapMain` |
| receiving them | `SmapRx`, `RxInvariant`, `RxEffects`, `RxLoop`, `RxFifo`, `RxWords`, `RxCopy`, `RxProgress`, `EeBuffer`, and the class `SmapReceiver` |
| who owns a packet buffer (`pbuf.c`, `smap_cmd.c`) | `PbufPool` |
| hard disk commands (`pata_ps2_cmd.c`, `pata_ps2_buffer.c`, `pata_ps2_ata.c`) | `PataPlan`, `PataCopy`, and the class in `Pata` |
| "bump and reset" buffers, three of which occur | `BumpRing` |
| the serial EEPROM and the debug tty | `Eeprom`, `Tty` |

Each driver is modelled twice where its behaviour spans many calls. A specification on values (`DmaQueue`, `SmapTx`,
`TxPipeline`, `SmapRx`, `PataPlan`, the functions of `EeBuffer` and `PbufPool`) says what a step does, and carries the
theorems about all runs. A class with the original's fields, rings and loops is proved to do what the specification
says. The transmitter and the receiver classes work on a real `Dev9Dma.Driver`, by making the callbacks it asks for.
What a specification itself does is fixed by laws on fields, bytes and lists that leave it no choice: `DmaQueue` from
`Admitted` on, `TxEffects`, `RxEffects`, and the lemmas `ReadLog`, `WriteLog`, `AllocDoes`, `OutputDecides` and their like.

## Main results

- **DMA queue.** Completing a transfer and starting the next call each other, and callbacks submit again; the
  recursion ends because the transfers that can still be caused get fewer (`DmaQueue.FitWeight`). In the queue the
  completions are the accepted requests in order, each once (`DmaQueue.RunIsFifo`). The ring of slots follows it from
  power-on over every run that takes no slot twice and no null address, with one post-DMA and one done callback for
  each completed request, in order (`Dev9Dma.Follow`); modest clients cause no other runs (`DmaQueue.ModestFits`). What an
  interrupt completes and accepts is the only outcome that obeys three laws (`DmaQueue.InterruptIsOnly`), and as long as
  there is room every follow-up, at any depth, is completed (`DmaQueue.InterruptsCompleteAll`).
- **Transmit integrity.** After any interleaving of submissions, words moved by the engine, interrupts, timer ticks,
  resets, chip status and traffic of other clients, a descriptor marked ready stands for a frame that transmit memory
  holds word for word (`TxPipeline.ReadyDescriptorsAreWhole`), every frame is called back once and in order
  (`TxPipeline.EveryFrameOnce`), and the chip's write pointer is exact (`TxPipeline.PointersAgree`). No frame is ever
  stuck in the DMA queue (`TxProgress.EveryFrameCanBePublished`), and one that waits is given away by the first transmit
  interrupt that finds enough memory released (`TxEffects.TxInterruptSends`).
- **Receive accounting.** Every descriptor comes back exactly once, frames are passed on in ring order, and the last 19
  frames are never overwritten (`RxInvariant.EveryFrameReturned`). An interrupt keeps this up exactly under two
  conditions on its beginning (`RxInvariant.RxIntKeepsIff`), and always ends (`RxLoop.LoopEnds`). A frame is dropped
  exactly for an error bit, a bad length or want of a buffer (`RxEffects.HandleRxDrops`, `RxEffects.HandleRxDelivers`), and
  every other can still be passed on (`RxProgress.EveryFrameCanBePassedOn`).
- **Receive integrity.** In every state, also while the engine is moving the words of the next frame, each of the last
  19 frames passed on is in the receive buffer word for word as the chip stored it, and so is the 20th last while no
  transfer of the receiver is running. This holds provided that the frame has a DMA block or nothing was dropped since
  the last frame with one (`RxCopy.RecentFramesIntact`).
- **Disk commands.** Three layers that count independently carry out one plan (`Pata.Driver.Command`), which tiles the
  scatter/gather list (`PataPlan.ReadsTile`, `PataPlan.WritesTile`), and tell the EE of its completion exactly once, as the
  last thing of all, if it is not a write with an entry at address 0, and never otherwise (`Pata.FinishedOnce`). What a read's log asks for is a plain copy of the disk's
  bytes, on every disk and in every run, exactly if every entry has whole 128-byte blocks
  (`Pata.CommandIsPlainCopyIff`), and so it is with what the disk gets of a write (`PataCopy.WriteIsPlainIff`).
- **Buffers.** The 64 packet buffers always have exactly one owner (`PbufPool.BuffersAlwaysOwned`), and as many are lost
  as events since the last reset found the DMA queue full, or no EE buffer (`PbufPool.LostAreLosses`).

## What the code does not enforce

Where the original promises something it does not always keep, the exact condition is proved.

- The late `tr->maddr = 0` clears a live transfer's slot unless the queue ends empty or the live transfers and those
  accepted in the step together are at most 32 (`Dev9Dma.MarkedIff`, and the last clause of `InterruptHandler` and
  `Transfer`). `DmaQueue.SlotTakenTwice` has a step that breaks it. Callbacks that submit at most one transfer, and none
  after a transfer without a full block, at every depth, never do (`DmaQueue.ModestFits`). This firmware's are like that,
  except that disk entries of fewer than 128 bytes submit after zero blocks; in general a step accepts no more than the
  queue's transfers and their follow-ups (`DmaQueue.AcceptsWithinWeight`).
- A transfer with a full block at address 0 jams the queue of all clients: its interrupt is taken for spurious, and from
  then on nothing completes or starts (`Dev9Dma.Driver.NullTransfer`, `Dev9Dma.Driver.StayJammed`).
- `SMap_Send` accepts a frame that fills transmit memory exactly, after which the free size reads as the whole memory
  (`TxLimits.FreeStaysExactIff`); a frame accepted then is copied over the oldest one. It does not look for a free
  descriptor; with the last one taken the ring looks empty (`TxLimits.LooksEmptyIff`). And it ignores a full DMA queue,
  where the frame is lost for good (`TxLimits.QueuedIff`, `TxFailures.FullQueueLoses`). `TxFailures.FrameIsOverwritten`
  and `TxFailures.DescriptorsRunOut` are runs from power-on that end in the first two. Nothing else goes wrong
  (`TxLimits.SendIsSafeIff`). Behind a lost frame, a frame without a full block is copied to the wrong place, because only
  the pre-DMA callback moves the chip's write pointer there (`TxEffects.TransferLands`, `TxEffects.ShortTransferLands`).
- `HandleTXInt` counts a descriptor that the chip has not looked at as an error (`TxInvariant.UntouchedCountsAsError`).
- A received frame shorter than one DMA block is read from wherever the chip's read pointer is, because the pre-DMA
  callback is not made for it. Right after a dropped frame it is delivered with the dropped frame's words
  (`RxFifo.ShortFrameAfterDrop`; `RxCopy.ShortFrameIsWrong` is a run from power-on).
- The 20th last frame can be overwritten while the next one is being moved (`RxInvariant.TwentiethMayBeHit`).
- `HandleRXInt` does not stop after the last frame when the chip's next descriptor is that of a frame whose transfer is
  still queued: it handles that frame a second time (`RxInvariant.SecondHandling`; `RxInvariant.FrameIsHandledTwice` is a
  run from power-on). `RxInvariant.StopsIff` says when that is, at the interrupt's beginning.
- A received frame that the full DMA queue refuses keeps its descriptor until the driver has gone round the whole ring and
  handles it again (`RxInvariant.FullQueueStrands`).
- Registering an EE buffer too small for the longest frame makes frames run over its end, and below the alignment
  offset the size wraps around (`EeBuffer.InsideIffRoom`).
- Only two chunks of the disk's data buffer are safe from the next one (`PataPlan.TwoChunksSurvive`,
  `PataPlan.ThirdChunkMayBeHit`), so a read is correct provided that SIF transfers lag at most two chunks behind. The
  original never waits for them, and a third chunk that is late arrives as the sixth one's bytes
  (`PataCopy.LateChunkIsWrong`).
- There is no PIO for the rest of a disk block: the engine leaves it on the disk, and what the buffer happened to hold is
  sent in its place (`PataCopy.PlainCopyIffSectors`, `PataCopy.ShortReadIsStale`). The rest of a block that is to be
  written never reaches the disk (`PataCopy.WriteIsPlainIff`).
- A write goes no further than its first entry at address 0 (`PataPlan.ReachedIsAllIff`), and the EE is never told that
  it is done (`Pata.FinishedIff`). If that entry has 128 bytes or more, its request jams the DMA queue
  (`Pata.AskRing`), and the driver stays in the middle of the command; if it has fewer, its completion is taken for the
  disk's interrupt, which is what the EE is told of, and the driver is idle again (`Pata.Driver.Command`,
  `PataPlan.WritesCompleteIff`).
- A packet buffer that the full DMA queue refuses, or whose received frame finds no EE buffer, is lost until the next
  reset (`PbufPool.LostAreLosses`). One such buffer stops the driver: `pbuf_alloc` never goes past it, so that it
  succeeds at most 63 more times (`PbufPool.LostStopsPool`), however many buffers are free (`PbufPool.AllocFailsIff`).
- A reset during a DMA transfer frees a buffer in use (`PbufPool.ResetKeepsIff`).
- `eePrintBuffer` sends packets of four characters, because `sizeof(text_data.text - 1)` is the size of a pointer.

## Model

| member | source | states |
|---|---|---|
| DmaQueue.BlocksExactBelow8M | dev9_dma/src/dev9_dma.c:141 | the lower half of the register is the length of a block in words; the block count in the upper half is the size in blocks modulo 65536, and equals it iff the size is below 8 MB |
| DmaQueue.FitWeight | dev9_dma/src/dev9_dma.c:83-97 | completing the head, whatever its callback submits, leaves strictly fewer transfers that can ever be caused; this is why the recursion ends |
| DmaQueue.SettleConserves | dev9_dma/src/dev9_dma.c:61-97 | starting the head completes zero-block transfers only, loses and reorders nothing, and stops at a head with a block |
| DmaQueue.InterruptConserves | dev9_dma/src/dev9_dma.c:99-115 | an interrupt completes the head and any zero-block transfers behind it; completed and queued are what was queued followed by what was accepted |
| DmaQueue.SubmitConserves | dev9_dma/src/dev9_dma.c:120-152 | a submission is accepted last in the queue unless 31 are queued, when nothing happens; completes only zero-block transfers |
| DmaQueue.HeadSubmits | dev9_dma/src/dev9_dma.c:83-86 | the follow-ups of the completed head are accepted first, in order: all of them if there is room, and else as many as fill the queue to 31 |
| DmaQueue.InterruptIsLawful | dev9_dma/src/dev9_dma.c:83-115 | what an interrupt accepts is what the callbacks of the completed transfers submit, in order, each as far as there is room at its time |
| DmaQueue.SettleIsOnly | dev9_dma/src/dev9_dma.c:61-97 | no other outcome of starting the queue conserves requests, accepts just that, completes zero-block transfers only and stops at a block |
| DmaQueue.InterruptIsOnly | dev9_dma/src/dev9_dma.c:83-115 | no other outcome of an interrupt obeys the laws |
| DmaQueue.SubmitIsLawful | dev9_dma/src/dev9_dma.c:130-149 | a submission to a busy queue with room does nothing but join it; one to an idle queue is settled by the same laws |
| DmaQueue.InterruptLosesNothing | dev9_dma/src/dev9_dma.c:83-115 | if everything that the queue can cause fits, what an interrupt completes and what can still be caused after it add up to that |
| DmaQueue.InterruptShrinks | dev9_dma/src/dev9_dma.c:83-115 | an interrupt leaves fewer transfers that can ever be caused |
| DmaQueue.InterruptsCompleteAll | dev9_dma/src/dev9_dma.c:83-115 | then as many interrupts complete every transfer that can be caused, at any depth |
| DmaQueue.ModestSettles | dev9_dma/src/dev9_dma.c:61-97 | if callbacks of zero-block transfers submit nothing, starting the queue accepts nothing |
| DmaQueue.ModestInterrupt | dev9_dma/src/dev9_dma.c:83-115 | in a queue whose requests, at every depth, have an address and submit at most one transfer, and none after zero blocks, an interrupt fits the ring's 32 slots and leaves such a queue |
| DmaQueue.ModestSubmit | dev9_dma/src/dev9_dma.c:120-152 | so does the submission of such a request |
| DmaQueue.AcceptsWithinWeight | dev9_dma/src/dev9_dma.c:83-97 | whatever callbacks submit, live plus accepted is at most the number of transfers the queue can ever cause |
| DmaQueue.SlotTakenTwice | dev9_dma/src/dev9_dma.c:72-97 | a full queue in which two zero-block transfers each submit one: the step accepts more than the ring has slots for |
| DmaQueue.RunIsFifo | dev9_dma/src/dev9_dma.c:26-152 | in the queue of the specification, over every run, completed followed by queued is exactly accepted, in order: each request completes once, in submission order; Follow says which runs the ring has |
| DmaQueue.ModestFits | dev9_dma/src/dev9_dma.c:61-152 | every step of every run in which only modest requests are submitted, at every depth, fits the ring's 32 slots and leaves no null address |
| DmaShare.SettleIsForeign | dev9_dma/src/dev9_dma.c:83-93 | callbacks of other clients add nothing to one client's share of the queue, at any depth of follow-ups |
| DmaShare.InterruptIsForeign | dev9_dma/src/dev9_dma.c:99-115 | an interrupt only moves a client's transfers from queued to completed |
| DmaShare.SubmitIsForeign | dev9_dma/src/dev9_dma.c:120-152 | a submission adds to a client's share its own request and nothing else |
| Dev9Dma.MarkedIff | dev9_dma/src/dev9_dma.c:95-97 | after a step the nonzero addresses mark exactly the live slots iff no live address is null and the queue is empty or live plus accepted was at most 32 |
| Dev9Dma.SingleFits | smaprpc/src/smap_dma.c:90-102 | a transfer without follow-ups, like a frame's, never makes the ring take a slot twice |
| Dev9Dma.SweptAfterClear | dev9_dma/src/dev9_dma.c:88-97 | clearing the head's slot after everything the nested completions did leaves 0 in the slots of all completed transfers and the address in all later ones |
| Dev9Dma.TraceOrder | dev9_dma/src/dev9_dma.c:61-93 | each completed transfer has its post-DMA callback right before its done callback, one transfer after the other, and the pre-DMA callback of the new head comes last |
| Dev9Dma.Driver.constructor | dev9_dma/src/dev9_dma.c:26-29 | the ring starts empty, idle and with no slot marked |
| Dev9Dma.Driver.Start | dev9_dma/src/dev9_dma.c:41-59 | the pre-DMA callback of the head is made and the engine runs it |
| Dev9Dma.Driver.TryStart | dev9_dma/src/dev9_dma.c:61-70 | does to the live transfers, the callbacks made and the slots' addresses what starting the queue of the specification says; ends idle iff empty |
| Dev9Dma.Driver.Complete | dev9_dma/src/dev9_dma.c:72-97 | completes the head: post-DMA and done callbacks in order, follow-ups queued before it leaves, next one started, slots cleared, read index advanced by the number completed |
| Dev9Dma.Driver.StartNext | dev9_dma/src/dev9_dma.c:91-93 | whether or not the queue is empty, does what starting the queue of the specification says |
| Dev9Dma.Driver.Callback | dev9_dma/src/dev9_dma.c:83-86 | submissions from a done callback join the ring as far as there is room and never start the engine |
| Dev9Dma.Driver.InterruptHandler | dev9_dma/src/dev9_dma.c:99-115 | an interrupt changes nothing iff the queue is idle or its head has no address; otherwise the queue moves on as specified with exactly its callbacks; the ring's invariant holds again iff the 32-slot condition does |
| Dev9Dma.Driver.TransferLocked | dev9_dma/src/dev9_dma.c:130-151 | inside or outside a callback: refused with -1 iff 31 are queued, else queued, and started iff the queue was empty |
| Dev9Dma.Driver.Transfer | dev9_dma/src/dev9_dma.c:120-152 | between steps, a submission does what the specification says and keeps the ring's invariant iff the 32-slot condition holds |
| Dev9Dma.Driver.NullTransfer | dev9_dma/src/dev9_dma.c:106-148 | on an idle queue, a request at address 0 with a full block is started and jams it; one without completes at once |
| Dev9Dma.Driver.StayJammed | dev9_dma/src/dev9_dma.c:99-152 | whatever interrupts and submissions follow, a jammed queue makes no callback and starts nothing |
| Dev9Dma.Follow | dev9_dma/src/dev9_dma.c:26-152 | from power-on, over every run whose steps all fit, the ring's invariant is kept, its live transfers are the queue of the specification, and the callbacks that end transfers are one post-DMA and one done for each completed request, in order |
| TxRing.PokeExtends | smaprpc/src/smap_dma.c:45-48 | words written at the write pointer extend the part of the frame stream that memory holds, round its end too, if the part fits the memory |
| TxRing.WindowHolds | smaprpc/src/smap.c:739-743 | what memory holds of the stream contains every frame inside it, at the place its pointer names |
| TxInvariant.HeadIsNext | smaprpc/src/smap.c:735-736 | the first of the transmitter's transfers in the queue is that of the next frame to publish |
| TxInvariant.PartLands | smaprpc/src/smap_dma.c:33-48 | any part of a frame that is written next continues its copy in memory |
| TxInvariant.TailLands | smaprpc/src/smap_dma.c:36-48 | the PIO words after the DMA blocks complete the frame in memory |
| TxInvariant.PublishDescribes | smaprpc/src/smap.c:729-750 | the done callback publishes the descriptor at the end index, with READY, GENFCS and GENPAD and the length and place of its frame, and calls back its owner once and in order |
| TxInvariant.CompleteKeeps | smaprpc/src/smap_dma.c:33-69 | one completion, of the transmitter or of another client, keeps the invariant |
| TxInvariant.PointerInPlace | smaprpc/src/smap_dma.c:15-25 | the pre-DMA callback finds the write pointer already where it sets it |
| TxInvariant.DmaInterruptKeeps | dev9_dma/src/dev9_dma.c:99-115 | a DMA interrupt after all blocks have been moved keeps the invariant |
| TxInvariant.EngineMoveKeeps | smaprpc/src/smap_dma.c:21-24 | a word moved by the engine keeps the invariant |
| TxInvariant.ForeignTransferKeeps | dev9_dma/src/dev9_dma.c:120-152 | transfers of other clients, with any follow-ups and also when refused, keep the invariant and the transmitter's frames |
| TxInvariant.FreeSizeExactIff | smaprpc/src/smap.c:70-78 | the free size is 4096 less the bytes of the frames in flight, iff those are fewer than 4096; a full memory reads as free |
| TxInvariant.SendSubmits | smaprpc/src/smap.c:781-791 | the transfer submitted is the one that continues the frames in flight in order |
| TxInvariant.SendKeeps | smaprpc/src/smap.c:753-801 | a send that fits what is really free, exact fills included, keeps the invariant and adds the frame iff its status is ok |
| TxInvariant.ReleaseKeeps | smaprpc/src/smap.c:99-106 | releasing the oldest descriptor that the chip is done with frees exactly its frame's bytes |
| TxInvariant.ReleaseSentKeeps | smaprpc/src/smap.c:81-107 | the loop releases precisely the descriptors the chip is done with up to the first it still has |
| TxInvariant.NoRepair | smaprpc/src/smap.c:109-115 | the branch that repairs disagreeing pointers is unreachable under the invariant |
| TxInvariant.ResultIsTwoIff | smaprpc/src/smap.c:81-118 | the interrupt returns 2 iff every frame given away has been released |
| TxInvariant.UntouchedCountsAsError | smaprpc/src/smap.c:93-97 | a descriptor with the control bits of a frame to be sent makes it return 0, the value for errors |
| TxInvariant.TransmitKeeps | smaprpc/src/smap.c:92-97 | any status the chip writes to a ready descriptor keeps the invariant |
| TxInvariant.InitEstablishes | smaprpc/src/smap.c:371-387 | the invariant holds after initialisation, whatever memory contains |
| TxInvariant.ReadyIsWhole | smaprpc/src/smap.c:739-743 | a ready descriptor has the length of its frame and memory holds every word of it where the descriptor points |
| TxInvariant.WritePointer | smaprpc/src/smap_dma.c:21-24 | the chip's write pointer is at the oldest queued frame's place plus what the engine has moved, or at the end pointer; so frames without a block land correctly |
| TxInvariant.QueueFollowsRing | smaprpc/src/smap.c:735-743 | the descriptors from the end index to the DMA index are, in order, those of the transmitter's queued transfers, whatever else is queued between |
| TxPipeline.OutputKeeps | smaprpc/src/main.c:110-149 | a submitted frame is sent, queued, failed or refused, in exactly one of these, and order is kept |
| TxPipeline.SendFirstKeeps | smaprpc/src/main.c:155-173 | a round of the loop moves the oldest request to the DMA queue or to the failed ones, and nothing else |
| TxPipeline.SendRequestsKeeps | smaprpc/src/main.c:152-174 | draining the request queue keeps the invariant if its sends are safe |
| TxPipeline.ResetKeeps | smaprpc/src/main.c:85-107 | a reset moves exactly the waiting frames to the dropped ones |
| TxPipeline.StatusTells | smaprpc/src/main.c:110-149 | the status returned is ok iff the frame was given away or waits, full iff it was refused, and another iff its owner was called back with an error: one for want of a link, the other for a length above 1514 |
| TxPipeline.StepKeeps | smaprpc/src/main.c:96-219 | every event keeps the invariant of the pipeline |
| TxPipeline.TimerRetries | smaprpc/src/main.c:203-219 | with a request waiting, the ticks before the third since the timer was reset do nothing but count, and that one sends all requests, or as many as fit |
| TxPipeline.WaitingRequestIsRetried | smaprpc/src/main.c:203-219 | in every reachable state with a request waiting, one to three ticks send what fits |
| TxPipeline.SendsUntilFull | smaprpc/src/main.c:155-162 | draining stops only with no request left or with the memory too full for the first |
| TxPipeline.ReadyDescriptorsAreWhole | smaprpc/src/smap.c:729-801 | in every reachable state a ready descriptor stands for a frame in flight, in ring order, and memory holds exactly that frame; no later frame has overwritten it |
| TxPipeline.EveryFrameOnce | smaprpc/src/main.c:85-174 | in every reachable state each submitted frame is given to the DMA queue, waiting, failed, refused or dropped, exactly one of them; those given are in order, called back once each in order, the rest queued in ring order |
| TxPipeline.PointersAgree | smaprpc/src/smap.c:70-117 | in every reachable state the free size is exact iff the memory is not full, the write pointer is where the oldest queued frame needs it, and no repair is due |
| SmapBd.FlagsAreBits | smaprpc/src/smap.h:69-107 | ready and empty are bit 15 of the status, and an error is any of its low ten bits |
| TxEffects.StatusIff | smaprpc/src/smap.c:758-779 | no link comes first, then a length above 1514, then a memory in which the words in use leave too few |
| TxEffects.SendAsks | smaprpc/src/smap.c:781-792 | an accepted frame joins the DMA queue as a transfer of its whole words from its buffer to the end pointer, for the DMA index |
| TxEffects.RepairsAtRest | smaprpc/src/smap.c:109-115 | the interrupt changes nothing but what it releases, and sets the start pointer to the end pointer iff the three indices are equal |
| TxEffects.ResultIsZeroIff | smaprpc/src/smap.c:81-118 | it returns 0 iff something is still in flight and a descriptor that it looked at has an error bit |
| TxEffects.DescriptorsAreClearOrUsed | smaprpc/src/smap.c:103-106 | in every reachable state a descriptor is all zero, or that of a published frame that is not released, with its length and place |
| TxEffects.TransferLands | smaprpc/src/smap_dma.c:15-48 | in any state, a frame with a block is copied to its own place, wherever the write pointer was |
| TxEffects.ShortTransferLands | smaprpc/src/smap_dma.c:33-48 | in any state, a frame without a block is copied to where the write pointer is, and its descriptor points at its own place |
| TxEffects.OutputDecides | smaprpc/src/main.c:110-149 | which of sent, waiting, failed and refused a submitted frame joins, for every status and length of the queue, and when the timer starts anew |
| TxEffects.SendRequestsDoes | smaprpc/src/main.c:152-174 | with a link, requests from the first on are sent in order, those that are too long fail, and it stops only at one for which the memory is too full; without one all fail |
| TxEffects.TxInterruptDrains | smaprpc/src/main.c:182-187 | after a transmit interrupt no request waits or the first does not fit, and the descriptors released are those up to the first that the chip still has |
| TxEffects.TxInterruptSends | smaprpc/src/main.c:182-187 | a waiting frame is given away by the interrupt if what it releases leaves enough memory |
| TxEffects.IdleTimer | smaprpc/src/main.c:206-208 | with no request waiting the timer stays at 0 |
| TxEffects.ResetDrops | smaprpc/src/main.c:85-107 | a reset empties the request queue and nothing else; the frames in it are, over every run after it, never sent and never called back |
| TxProgress.QueueEmpties | dev9_dma/src/dev9_dma.c:83-115 | from every state within the invariant, words moved by the engine and its interrupts empty the DMA queue |
| TxProgress.EveryFrameCanBePublished | smaprpc/src/smap.c:729-750 | from every reachable state there is a run of these alone after which every frame given away is published and its owner called back |
| TxLimits.QueuedIff | smaprpc/src/smap.c:791-797 | after an accepted send every frame given away is published or queued iff the DMA queue had room |
| TxLimits.FreeStaysExactIff | smaprpc/src/smap.c:775-796 | the free size is exact after an accepted send iff it was before and the frame leaves some memory free |
| TxLimits.LooksEmptyIff | smaprpc/src/smap.c:109 | the two indices that stand for an empty ring are equal after an accepted send iff it took the last descriptor |
| TxLimits.SendIsSafeIff | smaprpc/src/smap.c:775-797 | an accepted send keeps the invariant iff the frame fits what is really free, a descriptor stays free, and the DMA queue has room |
| TxLimits.ExactFillReadsEmpty | smaprpc/src/smap.c:777-779 | after an exact fill the whole memory counts as free and the next frame goes on top of the oldest |
| TxLimits.ShortSend | smaprpc/src/smap.c:753-801 | a frame of less than a block that finds the DMA queue idle is copied and published within the call |
| TxLimits.FullMemoryIsOverwritten | smaprpc/src/smap.c:775-791 | with the memory full, a short frame accepted while the oldest is ready for the chip leaves that descriptor ready, and its frame no longer in memory |
| TxLimits.LastDescriptorReadsEmpty | smaprpc/src/smap.c:89-115 | with 64 descriptors published the interrupt releases none, repairs the start pointer and frees all memory |
| TxLimits.LongFramesLeaveDescriptors | smaprpc/src/smap.c:775-779 | if all frames in flight have 65 bytes or more, at most 60 are in flight |
| TxLimits.LongFramesAreSafeIff | smaprpc/src/smap.c:775-797 | with only frames of 65 bytes or more in flight, an accepted send keeps the invariant iff it fits what is really free and the DMA queue has room |
| TxFailures.FrameIsOverwritten | smaprpc/src/smap.c:775-797 | a run from power-on, and a frame accepted after it, for which a ready descriptor no longer holds its frame |
| TxFailures.DescriptorsRunOut | smaprpc/src/smap.c:753-801 | a run from power-on, and a frame accepted after it, with which 64 descriptors are published and the next interrupt declares all memory free |
| TxFailures.RunLost | smaprpc/src/main.c:110-219 | a frame that nobody has stays so over every run, safe or not: not queued, not waiting, its owner not called back |
| TxFailures.FullQueueLoses | smaprpc/src/smap.c:791-797 | a frame given to a full DMA queue is, in every run after it, never queued and its owner never called back |
| TxFailures.FullQueueRun | dev9_dma/src/dev9_dma.c:120-152 | other clients can fill the queue to any length up to 31 from power-on |
| SmapDriver.CompletionsAreCalls | smaprpc/src/smap_dma.c:33-69 | the ring driver's post-DMA and done callbacks have, one after the other, the effect of the completions |
| SmapDriver.TraceIsApply | smaprpc/src/smap_dma.c:15-69 | following all callbacks that a step of the ring driver makes has the effect that the specification gives the step |
| SmapDriver.Transmitter.constructor | smaprpc/src/smap.c:371-387 | descriptors, pointers and indices start as initialisation says |
| SmapDriver.Transmitter.ComputeFreeSize | smaprpc/src/smap.c:70-78 | returns the free size of the specification, about which FreeSizeExactIff is proved |
| SmapDriver.Transmitter.PostDma | smaprpc/src/smap_dma.c:33-48 | the PIO loop writes the words that the blocks leave over, in order |
| SmapDriver.Transmitter.TxDone | smaprpc/src/smap.c:729-750 | the done callback refines the publication of the specification |
| SmapDriver.Transmitter.DmaTransfer | smaprpc/src/smap_dma.c:90-102 | on the real ring, with all callbacks followed, a transfer has the specified effect on the transmitter |
| SmapDriver.Transmitter.DmaInterrupt | dev9_dma/src/dev9_dma.c:99-115 | on the real ring, with all callbacks followed, an interrupt has the specified effect on the transmitter |
| SmapDriver.Transmitter.Send | smaprpc/src/smap.c:753-801 | the status and the whole new state are those of the specification; nothing changes unless the status is ok |
| SmapDriver.Transmitter.HandleTxInt | smaprpc/src/smap.c:81-118 | the loop, its early return and the repair do to the state what the specification says, and the value returned is the specified one |
| SmapMain.RequestQueue.StoreLast | smaprpc/src/main.c:56-67 | appends to the queue that the ring stands for |
| SmapMain.RequestQueue.GetFirst | smaprpc/src/main.c:70-74 | returns the oldest request |
| SmapMain.RequestQueue.PopFirst | smaprpc/src/main.c:77-82 | removes the oldest request and keeps the others in order |
| SmapMain.LowLevel.Direct | smaprpc/src/main.c:118-137 | with no request waiting, state and status are those of the specification on every status of the send |
| SmapMain.LowLevel.Output | smaprpc/src/main.c:110-149 | refines the submission of a frame, over the real rings, and returns the specified status |
| SmapMain.LowLevel.SendOne | smaprpc/src/main.c:155-173 | one round refines that of the specification, and goes on iff the memory was not full |
| SmapMain.LowLevel.SendRequests | smaprpc/src/main.c:152-174 | the draining loop refines that of the specification, over the real rings |
| SmapMain.LowLevel.Reset | smaprpc/src/main.c:85-107 | refines the reset of the request queue |
| SmapMain.LowLevel.Timer | smaprpc/src/main.c:203-219 | refines the timer tick |
| SmapMain.LowLevel.TxInterrupt | smaprpc/src/main.c:182-187 | refines the transmit interrupt: release, then drain, until no request waits or the first does not fit |
| RxInvariant.CompleteKeeps | smaprpc/src/smap.c:121-143 | a completed transfer gives back the descriptor of its own frame, the oldest one pending, with one FRAME_DEC |
| RxInvariant.DmaInterruptKeeps | dev9_dma/src/dev9_dma.c:99-115 | an interrupt keeps the accounting and leaves the driver's position alone |
| RxInvariant.ForeignTransferKeeps | dev9_dma/src/dev9_dma.c:120-152 | transfers of other clients keep the accounting |
| RxInvariant.FillKeeps | smaprpc/src/smap.c:193-198 | a frame stored by the chip in the next empty descriptor keeps the accounting |
| RxInvariant.FilledIffUnvisited | smaprpc/src/smap.c:193-198 | if the chip's next descriptor is empty, the driver finds a filled one iff a frame is unvisited |
| RxInvariant.DropKeeps | smaprpc/src/smap.c:203-214 | a dropped frame's descriptor is returned at once with one FRAME_DEC |
| RxInvariant.DeliverKeeps | smaprpc/src/smap.c:228-273 | a delivered frame gets its piece of the buffer and its transfer, and its descriptor stays out |
| RxInvariant.HandleRxKeeps | smaprpc/src/smap.c:180-273 | each call visits exactly one frame and keeps the accounting, if the DMA queue takes what it is given |
| RxInvariant.HandleRxMoves | smaprpc/src/smap.c:180-273 | each call moves on by one and changes no other descriptor; its own comes back within the call iff the frame is dropped, or has no block and finds the DMA queue idle |
| RxInvariant.RoundsKeep | smaprpc/src/smap.c:284-285 | so do any number of calls up to the number of unvisited frames |
| RxInvariant.StopsIff | smaprpc/src/smap.c:284-285 | having visited every frame, the loop stops iff at its beginning the chip's next descriptor was free, or all 64 were unvisited and the first one comes back within its call |
| RxInvariant.RxIntVisitsAll | smaprpc/src/smap.c:276-288 | under these conditions the loop stops after, and not before, every stored frame has been visited once |
| RxInvariant.NothingOwedIff | smaprpc/src/smap.c:262-267 | after any number of calls every visited frame has its FRAME_DEC or a transfer that will write it, iff the DMA queue took every frame given to it |
| RxInvariant.RxIntKeepsIff | smaprpc/src/smap.c:276-288 | visiting every unvisited frame keeps the accounting and ends the loop iff the DMA queue takes every frame and the loop stops in time |
| RxInvariant.SomeEmpty | smaprpc/src/smap.c:284-285 | with every frame visited some descriptor is empty |
| RxInvariant.EndsIf | smaprpc/src/smap.c:284-285 | whatever the packet buffers, the loop ends if some descriptor is empty at its beginning, or if the DMA queue takes every frame given to it |
| RxInvariant.RoundsOfLoop | smaprpc/src/smap.c:284-285 | when it ends, at least every unvisited frame has been found, and no more than those iff it stops in time |
| RxInvariant.SecondHandling | smaprpc/src/smap.c:180-285 | a further call finds a frame whose transfer is queued; it queues a second transfer for the same descriptor, or gives the descriptor back early; one FRAME_DEC more than frames is written or due |
| RxInvariant.FrameIsHandledTwice | smaprpc/src/smap.c:276-288 | a run from power-on after which an interrupt queues two transfers for one frame |
| RxInvariant.FullQueueStrands | smaprpc/src/smap.c:262-267 | a frame given to a full DMA queue is not passed on, and its descriptor not given back, whatever happens until the driver comes to that descriptor again |
| RxInvariant.InitEstablishes | smaprpc/src/smap.c:390-402 | the accounting holds after initialisation |
| RxInvariant.HappenKeeps | smaprpc/src/smap.c:121-288 | every event keeps the accounting |
| RxInvariant.RunKeeps | smaprpc/src/smap.c:180-288 | every run of stored frames, interrupts and foreign transfers keeps it |
| RxInvariant.EveryFrameReturned | smaprpc/src/smap.c:121-288 | in every reachable state FRAME_DECs plus queued transfers are the visited frames, a descriptor is empty iff its last frame is visited and not queued, frames are passed on in ring order, and the last 19 are disjoint |
| RxInvariant.TwentiethMayBeHit | smaprpc/src/smap.c:228-245 | frames for which the next one goes over the 20th last |
| RxEffects.HandleRxDrops | smaprpc/src/smap.c:193-245 | a frame with any of the error bits, of fewer than 14 or more than 1518 bytes, or without a packet buffer only gets its descriptor back, as it is but for the empty bit, with one FRAME_DEC |
| RxEffects.HandleRxDelivers | smaprpc/src/smap.c:228-273 | every other frame gets the piece behind the data pointer, or at the start if it does not fit there, and its transfer of whole words goes to that piece; what a full and an idle queue make of it |
| RxEffects.ReadPlaceMeans | smaprpc/src/smap.c:255 | the register value is the pointer less the base in whole words, modulo the chip's memory, for pointers below the base too |
| RxEffects.CompletePassesOn | smaprpc/src/smap.c:121-143 | a completed transfer sets the empty bit of its own descriptor, writes FRAME_DEC once and passes its frame on |
| RxEffects.DroppedForGood | smaprpc/src/smap.c:202-245 | a dropped frame is not passed on, whatever happens then |
| SmapReceiver.DoneOfTrace | smaprpc/src/smap_dma.c:60-69 | the done callbacks the ring driver makes in a step are those of the completed transfers, in order |
| SmapReceiver.Receiver.constructor | smaprpc/src/smap.c:390-402 | all descriptors start empty |
| SmapReceiver.Receiver.DmaInterrupt | smaprpc/src/smap.c:121-143 | on the real ring an interrupt has the specified effect on the receiver |
| SmapReceiver.Receiver.HandleRx | smaprpc/src/smap.c:180-273 | returns 0 and changes nothing iff the descriptor is empty; otherwise each of the error, length, no-buffer and delivery paths has the specified effect, and its own return value |
| RxLoop.RoundKeeps | smaprpc/src/smap.c:180-273 | a call of the receive function keeps every packet buffer with one owner and the DMA queue in step with them, and loses a buffer iff the frame is delivered to a full DMA queue, or is over at once and finds no EE buffer |
| RxLoop.LoopIsRounds | smaprpc/src/smap.c:284-285 | with the packet buffers followed, the loop does to the receiver what it does for the frames for which they have one |
| RxLoop.LoopEnds | smaprpc/src/smap.c:276-288 | the loop always ends, after at most 128 calls that find a frame, whatever the DMA queue refuses: a frame that keeps its descriptor keeps its packet buffer, and the allocation never goes past that |
| SmapReceiver.Receiver.HandleRxInt | smaprpc/src/smap.c:276-288 | the loop ends after the calls that find a frame, at most 128, and has their effect, in whatever state it begins; pool is what the packet buffers give |
| RxFifo.Chip.Receive | smaprpc/src/smap_dma.c:15-58 | for every word-aligned size, blocks and PIO together copy every word once and in order, from the frame's place if there is a block and from the read pointer otherwise |
| RxFifo.ReadsOwnFrameIff | smaprpc/src/smap_dma.c:27-29 | a transfer reads its own frame, whatever memory holds, iff it has a block or the read pointer is at the frame |
| RxFifo.UndroppedFramesAreRead | smaprpc/src/smap_dma.c:50-57 | as long as none is dropped, frames of any length are read from their own place |
| RxFifo.ShortFrameAfterDrop | smaprpc/src/smap.c:217-227 | a short frame behind a dropped one is delivered with the dropped frame's words |
| RxWords.HappenedRefines | smaprpc/src/smap.c:121-288 | with the words added, every event does to the receiver what it did without them |
| RxWords.ReadsOwnPlace | smaprpc/src/smap_dma.c:27-56 | in every reachable state the next transfer reads its own frame, if that has a block or its predecessors back to one with a block were all passed on |
| RxWords.ReadContinues | smaprpc/src/smap_dma.c:27-56 | words read on from where the engine or the callback is are the next ones of the frame, at their place in its piece of the buffer |
| RxWords.ReadKeeps | smaprpc/src/smap.c:228-245 | reading any part of the next frame leaves the 19 before it |
| RxCopy.MoveWordKeeps | smaprpc/src/smap_dma.c:27-29 | a word moved by the engine keeps the invariant of the words |
| RxCopy.InterruptedKeeps | dev9_dma/src/dev9_dma.c:99-115 | so does an interrupt after all blocks have been moved, with the PIO words, any short frames behind, and the next frame begun |
| RxWords.FinishKeeps | smaprpc/src/smap_dma.c:33-69 | a completion keeps the invariant of the words |
| RxCopy.HandledKeeps | smaprpc/src/smap.c:180-273 | so does a call of the receive function, whether it drops or delivers |
| RxCopy.StoringKeeps | smaprpc/src/smap.c:193-200 | so does a frame stored by the chip |
| RxCopy.RunsKeep | smaprpc/src/smap.c:121-288 | so does every run of stored frames, interrupts, words moved and foreign transfers |
| RxCopy.RecentFramesIntact | smaprpc/src/smap.c:121-288 | in every reachable state each of the last 19 frames passed on, and the 20th last too while no transfer of the receiver is running, is in the receive buffer as the chip stored it, if it has a block or no frame was dropped since the last one before it with a block |
| RxCopy.StraightIf | smaprpc/src/smap_dma.c:50-57 | that holds for frames of 125 bytes or more, and for all while none is dropped |
| RxCopy.ShortFrameIsWrong | smaprpc/src/smap.c:217-227 | a run from power-on after which the frame passed on is not in the buffer as the chip stored it |
| RxProgress.EveryFrameCanBePassedOn | smaprpc/src/smap.c:121-143 | from every reachable state there is a run of words moved and interrupts alone after which every delivered frame is passed on, and every visited one has its FRAME_DEC |
| EeBuffer.InputKeeps | smaprpc/src/main.c:254-282 | one frame, taken by the SIF or not, keeps the places in line and inside the buffer |
| EeBuffer.InputPlaces | smaprpc/src/main.c:261-281 | a frame goes to the start only if it does not fit where it is, and the next line is for the next one iff the SIF takes it |
| EeBuffer.SetBufferEstablishes | smaprpc/src/smap_rpc.c:38-49 | a registration with room for a maximum frame behind the offset establishes this |
| EeBuffer.InsideIffRoom | smaprpc/src/smap_rpc.c:38-49 | all sequences of frames stay inside the registered bytes, on 64-byte lines, iff a maximum frame fits behind the alignment offset or the length equals the offset |
| EeBuffer.RecentFramesSurvive | smaprpc/src/main.c:266-281 | frames within one lap, less two maximum frames, do not overlap |
| EeBuffer.Globals.Register | smaprpc/src/smap_rpc.c:35-49 | refines the registration, in 32-bit arithmetic |
| EeBuffer.Globals.Receive | smaprpc/src/main.c:254-282 | refines the placing of a frame and returns its place |
| PbufPool.OneOwner | smaprpc/src/pbuf.c:12-69 | free, request-queued, in DMA, with the SIF and lost partition the buffers |
| PbufPool.Pigeonhole | smaprpc/src/pbuf.c:6-7 | distinct buffers below n are at most n |
| PbufPool.QueueNeverFull | smaprpc/src/main.c:138-144 | the branch for a full request queue is unreachable |
| PbufPool.AllocKeeps | smaprpc/src/pbuf.c:51-69 | an allocated buffer was free, or its SIF transfer is over; it is in no queue |
| PbufPool.AllocDoes | smaprpc/src/pbuf.c:12-69 | an allocation succeeds iff the buffer at the index is free or its SIF transfer is over; it frees every buffer whose transfer is over, and changes no other |
| PbufPool.AllocFreesAll | smaprpc/src/pbuf.c:12-25 | after it no buffer is with the SIF whose transfer is over |
| PbufPool.AllocFailsIff | smaprpc/src/pbuf.c:51-69 | it fails iff the buffer at the index waits, is transferred, is lost or is still being sent to the EE |
| PbufPool.OutputDecides | smaprpc/src/main.c:110-149 | which of DMA queue, lost, request queue and SIF gets the buffer, with which reference count and id, for every status |
| PbufPool.SendFirstDecides | smaprpc/src/main.c:155-173 | the same for a round of draining |
| PbufPool.OutputKeeps | smaprpc/src/main.c:110-149 | the buffer of a frame to send finds exactly one new owner on every path |
| PbufPool.SendFirstKeeps | smaprpc/src/main.c:155-173 | a round of draining hands the buffer on, or leaves it where it is |
| PbufPool.CompleteLosesIff | smaprpc/src/main.c:254-276 | a completed transfer's buffer leaves the DMA queue; it is lost iff a received frame has nowhere to go, freed iff the SIF does not take it, and else the SIF's under the given id |
| PbufPool.AllocStopsAt | smaprpc/src/pbuf.c:51-69 | an allocation never takes a buffer that is in use by anything but a finished SIF transfer, and brings the index one nearer to it iff it succeeds |
| PbufPool.LostAreLosses | smaprpc/src/smap.c:262-267 | after every run, as many different buffers are lost as events since the last reset gave one to a full DMA queue, or found no EE buffer |
| PbufPool.LostStopsPool | smaprpc/src/pbuf.c:51-69 | until the next reset a lost buffer stays lost, and the allocations that succeed are those of the buffers before it, at most 63 |
| PbufPool.ResetKeepsIff | smaprpc/src/main.c:96-107 | a reset frees every buffer and empties the request queue, and keeps ownership in order iff no DMA transfer is pending |
| PbufPool.StepKeeps | smaprpc/src/smap_cmd.c:36-63 | every event passes buffers on without losing or sharing one |
| PbufPool.BuffersAlwaysOwned | smaprpc/src/pbuf.c:12-69 | in every reachable state each buffer is in exactly one place, lost ones included, the DMA queue has at most 31 transfers, and a buffer just allocated finds room in the request queue |
| PbufPool.Pool.CheckTransfers | smaprpc/src/pbuf.c:12-25 | frees exactly the buffers whose SIF transfer is over |
| PbufPool.Pool.Allocate | smaprpc/src/pbuf.c:51-69 | the array does what the specification says, and the result is the buffer or none |
| PbufPool.Pool.Clear | smaprpc/src/pbuf.c:35-49 | frees every buffer |
| BumpRing.Track | pata_ps2/src/pata_ps2_buffer.c:57-64 | the pointer has moved up by what was handed out since a piece, or has gone back once and given up less than one maximum piece |
| BumpRing.RecentPiecesSurvive | pata_ps2/src/pata_ps2_buffer.c:57-64 | a new piece is disjoint from an earlier one if what was handed out since leaves room for two maximum pieces |
| BumpRing.LastPiecesSurvive | smaprpc/src/smap.c:228-245 | n earlier pieces survive if the buffer has room for n + 2 maximum pieces |
| PataPlan.ReadsTile | pata_ps2/src/pata_ps2_buffer.c:28-65 | the chunks of a read cover the bytes of the list, in order, without gap or overlap |
| PataPlan.WritesTile | pata_ps2/src/pata_ps2_ata.c:40-90 | so do the chunks of a write |
| PataPlan.ReachedIsAllIff | pata_ps2/src/pata_ps2_cmd.c:93-100 | the entries that a write can reach are a prefix of the list, and all of it iff no entry before the last is at address 0 |
| PataPlan.WritesCompleteIff | dev9_dma/src/dev9_dma.c:106-110 | all of a write's requests complete iff the first entry at address 0, if there is one, has fewer than 128 bytes |
| PataPlan.FirstNullEntry | pata_ps2/src/pata_ps2_cmd.c:93-100 | with an entry at address 0, a write reaches exactly the entries up to the first one, and is stuck there iff that has 128 bytes or more |
| PataPlan.WritesCut | pata_ps2/src/pata_ps2_ata.c:75-90 | an entry is cut every 16384 bytes, and the next one begins where it ends |
| PataPlan.ReadsCut | pata_ps2/src/pata_ps2_buffer.c:52-65 | a read is cut at the same places as a write |
| PataPlan.ReadsGoBackIff | pata_ps2/src/pata_ps2_buffer.c:60-62 | a chunk is right behind the one before it, or at the start of the data buffer iff it would run over its end |
| PataPlan.ReadsJoin | pata_ps2/src/pata_ps2_buffer.c:9-10 | the chunks of two reads, the second from where the first ends, are those of one read of both lists |
| PataPlan.WholeIffSectors | dev9_dma/src/dev9_dma.c:141 | the engine moves all of every chunk iff every entry is a multiple of 128 bytes; PlainCopyIffSectors says what that means for the data |
| PataPlan.ReadsArePlaced | pata_ps2/src/pata_ps2_buffer.c:57-64 | the chunks lie in the data buffer as a bump-and-reset buffer hands them out |
| PataPlan.TwoChunksSurvive | pata_ps2/src/pata_ps2_buffer.h:10-17 | a chunk is disjoint from the two before it |
| PataPlan.ThirdChunkMayBeHit | pata_ps2/src/pata_ps2_buffer.c:60-62 | a list, and its six chunks, of which the last overwrites the third |
| PataCopy.ScatterMeans | pata_ps2/src/pata_ps2_cmd.c:102-110 | storing at distinct addresses puts each byte in its place and changes nothing else |
| PataCopy.TakenIsOffsetIff | dev9_dma/src/dev9_dma.c:141 | the engine takes all of the disk's bytes iff every chunk has whole blocks |
| PataCopy.MoveKeeps | pata_ps2/src/pata_ps2_buffer.c:57-64 | the engine's writes leave chunks still being sent to the EE alone |
| PataCopy.ArriveKeeps | pata_ps2/src/pata_ps2_cmd.c:102-110 | a chunk that arrives extends the copied prefix of the disk's bytes |
| PataCopy.RunKeeps | pata_ps2/src/pata_ps2_buffer.c:28-65 | with whole blocks every interleaving of engine and SIF keeps the copy right |
| PataCopy.ReadsAreFeasible | pata_ps2/src/pata_ps2_buffer.c:57-64 | the chunks lie inside the buffer and take all of the disk's bytes |
| PataCopy.WholeReadIsPlainCopy | pata_ps2/src/pata_ps2_cmd.c:49-125 | with whole blocks, when the last chunk has arrived, EE memory is what a plain copy of the disk's bytes to the list's entries makes it |
| PataCopy.CanFinish | pata_ps2/src/pata_ps2_cmd.c:112-124 | every read that has begun can be finished |
| PataCopy.TakesNoMore | dev9_dma/src/dev9_dma.c:141 | a run does not depend on the bytes that the engine leaves on the disk |
| PataCopy.PartialReadIsNoCopy | pata_ps2/src/pata_ps2_cmd.c:49-125 | if the engine leaves anything, some finished run is no plain copy |
| PataCopy.PlainCopyIffSectors | pata_ps2/src/pata_ps2_cmd.c:49-125 | the finished read is a plain copy on all disks, buffers and runs iff every entry is a multiple of 128 bytes |
| PataCopy.ShortReadIsStale | pata_ps2/src/pata_ps2_cmd.c:102-110 | an entry of less than a block arrives as the bytes the buffer held before |
| PataCopy.LateChunkIsWrong | pata_ps2/src/pata_ps2_buffer.c:57-64 | for that list, a disk and a run in which the third chunk is late end in an EE memory that is no plain copy |
| PataCopy.WritesWholeIff | dev9_dma/src/dev9_dma.c:141 | the engine moves all of every chunk of a write iff every entry is a multiple of 128 bytes |
| PataCopy.WriteIsPlainIff | pata_ps2/src/pata_ps2_ata.c:75-90 | the disk gets the bytes of a write's entries, in order, iff every entry is a multiple of 128 bytes, whatever memory holds |
| Pata.Driver.AtaTransfer | pata_ps2/src/pata_ps2_ata.c:169-194 | when idle, asks the DMA queue for the first part; otherwise reports and changes nothing |
| Pata.Driver.AtaStart | pata_ps2/src/pata_ps2_ata.c:75-90 | when waiting, asks for at most 16 KB; otherwise reports and changes nothing |
| Pata.Driver.BufferRead | pata_ps2/src/pata_ps2_buffer.c:70-82 | starts the first chunk of an entry at its place in the data buffer |
| Pata.Driver.BufferStart | pata_ps2/src/pata_ps2_buffer.c:52-65 | starts one chunk, going back to the start of the buffer if it does not fit |
| Pata.Driver.StartSg | pata_ps2/src/pata_ps2_cmd.c:49-83 | begins the plan of the remaining entries, or reports the end |
| Pata.Driver.StartRead | pata_ps2/src/pata_ps2_cmd.c:60-70 | an entry to read makes all three layers begin its first chunk, where the plan has it |
| Pata.Driver.StartWrite | pata_ps2/src/pata_ps2_cmd.c:60-74 | so does an entry to write, for the two layers concerned |
| Pata.Driver.CmdCallback | pata_ps2/src/pata_ps2_cmd.c:85-125 | sends a chunk of a read to its place, counts it, and goes on to the next entry iff the current one is used up; a null address is reported as the disk's interrupt |
| Pata.Driver.BufferCallback | pata_ps2/src/pata_ps2_buffer.c:28-50 | both before and after the layer above may have begun another entry, exactly the next chunk is started |
| Pata.Driver.Count | pata_ps2/src/pata_ps2_cmd.c:102-118 | in the middle of an entry of a write, which is then not at address 0, both layers count the same and tell nothing |
| Pata.Driver.CountLast | pata_ps2/src/pata_ps2_cmd.c:94-124 | the end of an entry begins the next one; if it was at address 0, it is told as the disk's interrupt and ends the command for good |
| Pata.Driver.Continue | pata_ps2/src/pata_ps2_ata.c:60-65 | a write longer than 16 KB goes on where it stopped |
| Pata.Driver.Conclude | pata_ps2/src/pata_ps2_ata.c:66-72 | a finished transfer makes the layers above begin the rest of the plan |
| Pata.Driver.DmaDone | pata_ps2/src/pata_ps2_ata.c:40-73 | when the DMA queue completes the request under way, its chunk is done and the next, if any, is asked for once; the three layers' counts agree again and no guard fires |
| Pata.Driver.IntrAta0 | pata_ps2/src/pata_ps2_ata.c:112-134 | the disk's interrupt is reported once when idle, and only noted as an error otherwise |
| Pata.Driver.CmdHandle | pata_ps2/src/pata_ps2_cmd.c:127-140 | a command begins its plan |
| Pata.Driver.Command | pata_ps2/src/pata_ps2_cmd.c:49-140 | for every list, empty entries included, the log of DMA requests, sends and replies is, in order, that of the plan up to a request that never completes; the data buffer is filled up to the end of the plan; the driver ends idle iff there is no such request, which is the last of the log otherwise; no guard fires |
| Pata.FinishedIff | pata_ps2/src/pata_ps2_cmd.c:49-100 | what such a log adds tells the EE of the completion iff it is a read or no entry is at address 0 |
| Pata.FinishedOnce | pata_ps2/src/pata_ps2_cmd.c:76-82 | in what a command adds to the log its completion occurs exactly once and last, or, for a write with an entry at address 0, not at all |
| Pata.ReadLog | pata_ps2/src/pata_ps2_cmd.c:102-124 | a read adds, for each chunk of its plan, one request into the data buffer and then one send to its place, then its completion, and nothing else |
| Pata.WriteLog | pata_ps2/src/pata_ps2_ata.c:75-90 | a write adds one request out of its place for each chunk up to the first at address 0, then its completion if there is none there, the disk's interrupt if that has no full block, and nothing else |
| Pata.AskRing | dev9_dma/src/dev9_dma.c:99-152 | on the idle ring and with its interrupt, a request's done callback is made iff the plan says that it completes; otherwise the ring is jammed |
| Pata.LogOfRead | pata_ps2/src/pata_ps2_cmd.c:49-125 | the transfers that a read's log asks for are the chunks of its plan |
| Pata.CommandIsPlainCopyIff | pata_ps2/src/pata_ps2_cmd.c:49-140 | what a read command's log asks for is a plain copy in every run of engine and SIF iff every entry is a multiple of 128 bytes |
| Eeprom.TopFits | smaprpc/src/smap_eeprom.c:71-74 | sixteen bits received most significant first never overflow 16 bits and prefix the word |
| Eeprom.SixBits | smaprpc/src/smap_eeprom.c:58-62 | the six bits that the loop takes from position 5 make up the low six bits of the address, behind the operation |
| Eeprom.Reader.DataOut | smaprpc/src/smap_eeprom.c:19-32 | the device samples exactly the given bit |
| Eeprom.Reader.DataIn | smaprpc/src/smap_eeprom.c:34-51 | the bit returned is what the device shows after one clock |
| Eeprom.Reader.StartOp | smaprpc/src/smap_eeprom.c:78-106 | whatever it was doing, the device has taken a start bit and the two bits of the operation |
| Eeprom.Reader.PutBit | smaprpc/src/smap_eeprom.c:60-61 | one round gives the device the next bit of the address |
| Eeprom.Reader.PutAddr | smaprpc/src/smap_eeprom.c:53-63 | the device is about to send the word at the low six bits of the address |
| Eeprom.Reader.GetData | smaprpc/src/smap_eeprom.c:65-76 | returns the word at the device's address and moves the device on to the next |
| Eeprom.Reader.Read | smaprpc/src/smap_eeprom.c:117-141 | returns the words from the address on, round the end of the device, and leaves the device in standby |
| Tty.Ring.TakePacket | eedebug/src/eedebug.c:82-94 | takes the next one to four characters, fewer than four only if no more are waiting |
| Tty.Ring.SendPacket | eedebug/src/eedebug.c:79-108 | one packet of four characters, or of all if fewer are waiting, is sent, or nothing was waiting |
| Tty.Ring.Drain | eedebug/src/eedebug.c:75-109 | sends everything that is waiting, in order and in as few packets of four as hold it |
| Tty.Ring.Put | eedebug/src/eedebug.c:174-175 | one more character waits, behind the others |
| Tty.Ring.Overflow | eedebug/src/eedebug.c:162-169 | one notice is sent before everything that is waiting |
| Tty.Ring.WriteOne | eedebug/src/eedebug.c:158-176 | a character sends nothing unless 1023 are waiting, and then the notice and all of them before it waits itself |
| Tty.Ring.Write | eedebug/src/eedebug.c:154-180 | however full the ring, sent followed by waiting is what was written, in order; the ring is said to be full once for every 1023 characters that another one follows, before they are sent, and otherwise nothing is sent |
| Tty.Session | eedebug/src/eedebug.c:75-180 | whatever is written, and whenever between writes single packets are sent, the packets carry exactly what was written |

## Left out

- Hardware registers: EMAC3 configuration, link and MAC setters, FIFO resets, interrupt masks, MDIO, LEDs, DMA direction bits and real time.
- `intrelay`, the RPC threads, module start-up, `dev9_dma_client_init`: no invariant to keep.
- Null callbacks of DMA clients: every client that this firmware registers has all three.
- `_dev9_dma_intr_handler` is taken to be called only when the engine has finished, or when it is idle.
- Assumed of the chip: its write and read pointers advance by one word per word written or read and go round at the end
  of their memories, FRAME_DEC leaves the read pointer alone, received frames are stored in ring order, each behind the
  one before, and a frame is left alone until its descriptor comes back.
- Assumed of the disk: what the engine does not take stays for the next request.
- Dev9Dma.Driver.Start: the DMA control register and the channel's direction bits are left out.
- Transmitter and receiver as one product machine: each is proved against all traffic of all other clients of the DMA queue, the other one included.
- The value queues of `SmapTx` and `SmapRx` are followed by the ring driver as long as no slot is taken twice and no address is null, which frames' transfers and modest clients guarantee (`Dev9Dma.SingleFits`, `DmaQueue.ModestFits`, `Dev9Dma.Follow`).
- TxPipeline.StepKeeps: sends that break one of the three conditions of `TxLimits.SendIsSafeIff` are excluded from runs, because the invariant then fails; so are resets during a transfer of the transmitter, which free a buffer in use (`PbufPool.ResetKeepsIff`).
- RxInvariant.RunKeeps: interrupts outside the two conditions of `RxInvariant.RxIntKeepsIff` are excluded from runs, because the accounting then fails: those in which a frame to be delivered finds the DMA queue full, and those that do not stop in time.
- RxInvariant.RxIntVisitsAll: the chip does not store another frame during the interrupt; one stored then belongs to the next.
- EeBuffer.Globals.Receive: a position within 2 KB of 2^32, which no EE address reaches, does not wrap around.
- Lists of several pieces in `SMapLowLevelInput`: received frames always have one.
- PbufPool.BuffersAlwaysOwned: resets during a DMA transfer are excluded from runs, because they free a buffer in use.
- `pbuf_free` on a buffer in the DMA queue by anything other than a reset does not occur.
- Pata.Driver.Command: addresses and sizes are not bounded by 32 bits, the DMA queue accepts every request, and the next command comes when the driver is idle.
- PataCopy.WriteIsPlainIff: the EE is taken to leave the memory that it has written alone until the disk has it.
- SmapDriver.Transmitter.Send: frames are taken to have a buffer; at address 0 the interrupt handler would not see their transfer, as the last clause of `Dev9Dma.Driver.Transfer` says.
- PataCopy.PlainCopyIffSectors: that the third chunk before has arrived when a chunk begins is a condition on the SIF, which the original does not check.
- The races of `eePrintBuffer` on its static packet, and several writers of the tty: dequeuing a packet is one step.
- Tty.Ring.Write: a write of negative size, which writes nothing, is not modelled.
