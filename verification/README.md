# Sophon device driver: verified model

A Dafny model of the parts of the Sophon PCIe kernel driver that keep real shared state, with proofs of what
they promise.  `dafny verify dfyconfig.toml` checks everything.

| part | modules |
|---|---|
| Pool allocator: bitmap loops, searches, chunks, heaps | WordBits, Bitmap, ZeroArea, GenPool, Gmem |
| The same allocator with many threads and no lock | PoolProtocol, PoolAvail, PoolProgress |
| Packet rings between host and device | Ring, PacketRing |
| The packet ring with both sides running | PacketProtocol, PacketProgress |
| Message FIFO of the XPU channel and its kfifo | Ring, MsgFifo, ApiQueue |
| Senders, firmware, interrupts, syncs, invalidation together | ApiMachine, ApiSequence, ApiProtocol, ApiSync, ApiProgress |
| Library registries, one caller at a time | LibRegistry, DynRegistry |
| The registries with many callers | LibProtocol, DynLibProtocol, FuncIdProtocol |
| Copying through the stage buffer; with many transfers | Staging, StagingProtocol |
| Flash programming | Flash |
| Firmware upload: checksum, packets, stop-and-wait | Crc, Xmodem |
| Timer and timeouts | Timer |
| Power window and voltage/frequency controller | FreqScaling |
| Arithmetic and Option | Arith, Wrappers |

Code that updates state in place is modelled by classes and arrays whose methods are proved against
specification functions and predicates; ghost parameters and fields carry the history those speak about.
Concurrent code is modelled a second time as a transition system (`State`, `Action`, `Enabled`, `Apply`, `Run`):
one action is one access to shared memory, or one section under a mutex, and the theorems hold for every finite
run.  Words, bytes and registers on which the code does bit operations are sequences of their bits or bit
vectors of 8 bits; other numbers are integers, with 8-, 32- and 64-bit wrap-around written out where the code can
reach it.

## What the proofs found

These expectations fail.  For each there is a lemma with an input or a run that shows it, and a lemma with the
exact condition under which the code does meet it.

- Both syncs can report success with an XPU message still pending when a thread also sends on the CPU channel,
  which `driver/Makefile:3` enables by default: the channels share the sequence numbers (`ApiSync.FalseSync`, and
  `ApiSync.SyncsFooledByCpuChannel` from every state in which the thread may send).  `ApiSync.ThreadSyncExactly`
  and `ApiSync.HandleSyncExactly` say of every reachable state whether waiting on can be trusted.
- Handle sync can also report success too early when no CPU number is left: a send on the CPU channel may store its
  number over that of a later send, and the snapshot then covers too little (`ApiSync.StaleSnapshot`).  The
  condition is part of `ApiSync.HandleSyncExactly`; a snapshot of a number that went to the XPU channel meets it
  (`ApiSync.SnapshotCovers`).
- A thread sync can run into its timeout with nothing outstanding: a send that is given up takes back one number,
  although another thread may have taken one in between (`ApiProgress.VainAfterGiveUp`), and an API on the CPU
  channel may complete after a later one on the XPU channel (`ApiProgress.VainAfterLateCompletion`).
  `ApiProgress.ThreadSyncSucceedsExactly`, `SyncAfterGiveUpExactly` and `OutcomeSettled` have the conditions.  A
  handle sync after a send that was given up waits for a later API (`ApiProgress.HandleSyncAfterGiveUp`).
- A firmware upload can report success with the last block missing: ACKs carry no number and nothing drops one
  that comes late (`Xmodem.SuccessWithoutTheLastBlock`).  `Xmodem.WaitMayEndExactly`: a wait may end if and only
  if no ACK is still to come or the block is the last.
- Two first loads of one library at the same time give it two nodes (`LibProtocol.TwoNodes`), and loading it under
  a second name counts its process twice and leaves a node behind (`LibProtocol.CountedTwice`,
  `LibProtocol.NodeOutlivesUsers`).  `LibProtocol.RegistrySoundExactly` has the condition.
- Two first loads of a dynamic library at the same time are both sent (`DynLibProtocol.TwoFirstLoads`), and so are
  two last unloads (`DynLibProtocol.TwoLastUnloads`); an unload while nobody uses the library is sent too
  (`DynLibProtocol.UnloadWithoutUser`); a load whose message is not sent stays listed
  (`DynLibProtocol.FailedLoadStays`).  `DynLibProtocol.DeviceFollowsUseExactly` has the condition for all four.
- Two callers can be given two ids for one function (`FuncIdProtocol.OnePairTwoIds`) or one id for two
  (`FuncIdProtocol.TwoPairsOneId`); `PairListedOnceExactly` and `IdsDistinctExactly` have the conditions.  A
  function asked for again after the last unload of its library gets a new id (`FuncIdProtocol.NewIdAfterForget`),
  because it is not listed any more (`DynRegistry.Registry.GetFunc`).
- A stage copy of more than 2^32 minus 1 MiB bytes does nothing and reports success
  (`Staging.PassesExact`, `Staging.Memcpy`, `StagingProtocol.FinishedMeansDelivered`).
- Flash programming erases one sector past the image.  With 24-bit addresses an image that ends at 16 MiB also
  erases sector 0 (`Flash.ImageAtTheEndErasesSectorZero`, exactly when by `Flash.StaysAheadExactlyWhenInside`),
  and a 16 MiB upload erases its own start after writing it and reports success (`Flash.Device.ProgramA53`).  The
  sector count has 8 bits (`Flash.EraseCountExact`).
- `avail` of a pool can be negative for a moment (`PoolProtocol.AvailCanGoNegative`).  `PoolAvail.AvailExactly` says
  in which states it is, and `PoolAvail.GoesBelowExactly` from which states new allocations bring it there.
- At the slowest level a high-power run does not restart the low-power count of the frequency controller
  (`FreqScaling.LowRunsNeedNotBeConsecutive`); `FreqScaling.UpStepPrecededBy` says which runs precede an up-step.

## Model

| member | source | states |
|---|---|---|
| Bitmap.SetBitsLl | driver/bm_genalloc.c:45-58 | Refuses exactly when one of the masked bits is set, and otherwise sets exactly those bits of one word. |
| Bitmap.ClearBitsLl | driver/bm_genalloc.c:60-73 | Refuses exactly when one of the masked bits is clear, and otherwise clears exactly those bits of one word. |
| Bitmap.BitmapSetLl | driver/bm_genalloc.c:86-108 | Over any number of words: a remainder r means exactly the first nr - r bits went from 0 to 1, nothing else changed, and the word where it stopped holds a bit that was set already. |
| Bitmap.BitmapClearLl | driver/bm_genalloc.c:121-143 | The same for clearing. |
| Bitmap.SucceedsExactlyWhenFree | driver/bm_genalloc.c:86-143 | The remainder is 0 if and only if every bit of the range had the value to be changed. |
| Bitmap.LoopResultUnique | driver/bm_genalloc.c:86-143 | The bit-level contract fixes remainder and resulting bitmap. |
| Bitmap.RollbackRestores | driver/bm_genalloc.c:362-372 | After a partial set, clearing (start, nr - remain) succeeds and gives back exactly the bitmap from before the attempt. |
| WordBits.RangeMaskBit | driver/bm_genalloc.c:75-84 | The first-word and last-word masks of the loops select exactly the bits of the range that lie in the current word. |
| ZeroArea.AlignUpIsLeast | driver/bm_genalloc.c:158-181 | Rounding up gives the least aligned index that is not below the argument. |
| ZeroArea.FindNextZeroAreaOff | driver/bm_genalloc.c:158-181 | Terminates with the smallest index at or above start whose nr bits are clear, inside size and aligned, or with a value above size exactly when there is none. |
| ZeroArea.FirstFitAlign | driver/bm_genalloc.c:596-611 | The least fit for the derived alignment and offset, and the remainder of the resulting address modulo the alignment. |
| ZeroArea.AlignedAddress | driver/bm_genalloc.c:596-611 | For every chunk start: the address modulo the alignment is the chunk start modulo the smaller of alignment and granule, so it is aligned whenever the chunk start is a multiple of the granule. |
| ZeroArea.BestFitSearch | driver/bm_genalloc.c:678-702 | The leftmost start among the shortest maximal free runs of at least nr bits, or size. |
| ZeroArea.BestFitIsFit | driver/bm_genalloc.c:678-702 | Best fit answers with a place for the request, and with size if and only if there is none. |
| ZeroArea.BestFitUnique | driver/bm_genalloc.c:678-702 | There is only one best fit. |
| PoolProtocol.LiveAllocationsDisjoint | driver/bm_genalloc.c:45-142 | Over every interleaving of single word accesses of any number of allocating and freeing threads, with arbitrarily stale search results, no two live allocations share a bit and each lies inside the chunk. |
| PoolProtocol.SetBitsHaveOneOwner | driver/bm_genalloc.c:355-377 | In every run a bit is set if and only if a live or in-flight request owns it, and never two do. |
| PoolProtocol.NeverWarned | driver/bm_genalloc.c:362-372 | In every run the rollback's clear and the clear of a matching free succeed, so neither warning is reached. |
| PoolProtocol.QuiescentConservation | driver/bm_genalloc.c:349-381 | In every quiescent state avail plus the granule-rounded live allocations is the chunk size, and the set bits are exactly theirs. |
| PoolProtocol.AvailBounds | driver/bm_genalloc.c:376-377 | In every run avail is at most the chunk size, and below zero by no more than what frees in progress still have to credit. |
| PoolProtocol.AvailCanGoNegative | driver/bm_genalloc.c:349-377 | A run in which avail is negative: the size test, the charge and the credit are not one step. |
| PoolAvail.AvailExactly | driver/bm_genalloc.c:349-453 | In every state of every run, quiescent or not, avail is the size less the granules that are neither clear nor owed; it is below zero exactly when frees in progress owe more granules than are clear and taken but not yet charged. |
| PoolAvail.GoesBelowExactly | driver/bm_genalloc.c:349-381 | From a reachable state, allocations that begin there can bring avail below zero, with all requests in progress paused, if and only if it is below zero already, or is positive while frees in progress owe more than claims in progress have still to charge. |
| PoolProtocol.RunInv | driver/bm_genalloc.c:331-460 | Every state of every run satisfies the ownership and accounting invariant. |
| PoolProgress.Finishes | driver/bm_genalloc.c:331-460 | From every reachable state each request alone comes to its end, whatever it is in the middle of, and no other request is touched. |
| PoolProgress.CanRest | driver/bm_genalloc.c:331-460 | From every reachable state all requests can come to their end, and then avail plus the live granules is the chunk size. |
| PoolProgress.FreeCompletes | driver/bm_genalloc.c:421-460 | From every reachable state a live block can be given back, and avail grows by exactly its granules. |
| GenPool.AnswerIsPlace | driver/bm_genalloc.c:580-702 | Each of first fit, aligned fit and best fit answers with a place, or with at least end_bit exactly when there is none. |
| GenPool.Chunk.TryAlloc | driver/bm_genalloc.c:347-381 | One chunk: 0 exactly when too little is available or the algorithm has no place, with nothing changed; otherwise exactly one new block of whole granules. |
| GenPool.Chunk.FreeRange | driver/bm_genalloc.c:436-453 | For any address and size: a range that runs over the chunk, or that holds a clear bit, only warns and credits nothing; any other range is cleared exactly and its granules are credited. |
| GenPool.Chunk.Free | driver/bm_genalloc.c:421-460 | Giving back a held block clears exactly its bits, credits exactly its granules and never warns. |
| GenPool.Pool.Alloc | driver/bm_genalloc.c:314-389 | 0 exactly for size 0 or when every chunk refuses; otherwise the first chunk that can serves the request, every other chunk is untouched, and the total drops by the granule-rounded size. |
| GenPool.Pool.FindChunk | driver/bm_genalloc.c:431-440 | The chunk an address lies in, which is unique. |
| GenPool.Pool.Free | driver/bm_genalloc.c:421-460 | For any address and size: outside every chunk it warns and changes nothing; otherwise the chunk of the address changes as for a range, and no other chunk does. |
| GenPool.Pool.FreeHeld | driver/bm_genalloc.c:421-460 | A held block is found by its address alone, exactly it goes back without a warning, and the total grows by its granule-rounded size. |
| GenPool.Pool.Avail | driver/bm_genalloc.c:517-529 | The sum of the chunks' counters. |
| GenPool.Pool.Size | driver/bm_genalloc.c:535-547 | The managed bytes, which are the available bytes plus the live granules. |
| GenPool.ChunksConserve | driver/bm_genalloc.c:517-547 | Available plus granule-rounded live bytes equals managed bytes, over all chunks. |
| Gmem.Device.IonAlloc | driver/bm_bgm.c:430-462 | 4 KiB rounding, last-added-first heap walk; success, -EINVAL, -ENODEV and -ENOMEM exactly when they apply. |
| Gmem.Device.CarveoutFree | driver/bm_bgm.c:50-59 | The failure value is ignored; a block goes back to its own heap and the total grows by its pages. |
| Gmem.Device.GmemAlloc | driver/bm_gmem.c:262-296 | The lowest heap of the mask that can serves the request and exactly the rounded size leaves the total; it fails if and only if the size test fails or every heap of the mask refuses, and then no heap has changed and the address field is as given or the invalid address, respectively. |
| Gmem.Device.TotalSize | driver/bm_gmem.c:89-105 | The total over all heaps, equal to available bytes plus 4 KiB for every live granule. |
| Gmem.Device.AvailSize | driver/bm_gmem.c:107-124 | The sum of the heaps' counters. |
| Ring.PutGet | driver/bm_pt.c:198-239 | What is written into a ring at a position is read back from it, around the end too, and the other cells keep their content. |
| Ring.PutConcat | driver/bm_pt.c:259-281 | Two consecutive enqueues write the concatenation. |
| Ring.Distance | driver/bm_pt.c:183-196 | The ring distance of two positions is the number of cells of the records between them, as long as that is below the ring size. |
| PacketRing.Le32RoundTrip | driver/bm_pt.c:259-321 | The length field decodes to the length encoded. |
| PacketRing.Enqueue | driver/bm_pt.c:198-209 | The two copies are one write around the ring. |
| PacketRing.Dequeue | driver/bm_pt.c:228-239 | The two copies are one read around the ring. |
| PacketRing.LocalQueue.Send | driver/bm_pt.c:259-281 | Refused exactly when the padded packet does not fit into what this side knows to be free; otherwise the frame is at the old head and the head advances by the padded length. |
| PacketRing.LocalQueue.PkgLen | driver/bm_pt.c:309-321 | The decoded length at the tail, or -ENOMEM when the queue looks empty. |
| PacketRing.LocalQueue.Recv | driver/bm_pt.c:323-339 | Delivers the payload at the tail and advances by the padded length, or refuses and consumes nothing. |
| PacketRing.MsgChannel.MsgSend | driver/sg_comm.c:179-221 | The message registers behave like a send with a fresh tail. |
| PacketRing.MsgChannel.MsgRecv | driver/sg_comm.c:223-263 | 0 when empty, -2 without consuming when the packet is larger than the caller's buffer, otherwise the packet. |
| PacketProtocol.ReceivedIsPrefixOfSent | driver/bm_pt.c:359-395 | Over every interleaving of single byte accesses, loads and stores of stale pointers by one producer and one consumer, the packets received are exactly the first packets sent, whole, once and in order. |
| PacketProtocol.UnreadBytesSurvive | driver/bm_pt.c:198-281 | In every run no byte of an unread packet is overwritten. |
| PacketProtocol.PointersAligned | driver/bm_pt.c:309-321 | In every run all six pointers stay multiples of 8 and the plain 4-byte length load never runs over the end of the queue. |
| PacketProtocol.ReceiveNeverRefused | driver/sg_comm.c:148-177 | In every run a receiver that sees a new head reads the right length and is refused only for want of room in its own buffer, consuming nothing. |
| PacketProtocol.SendRefusedExactlyWhenFull | driver/bm_pt.c:259-281 | In every run a send is refused if and only if the padded packet does not fit beside what the sender does not know to be consumed. |
| PacketProtocol.RunInv | driver/bm_pt.c:183-395 | Every state of every run satisfies the ring invariant. |
| PacketProgress.CatchesUp | driver/bm_pt.c:198-395 | From every reachable state both sides can catch up: the send in progress ends, everything sent is received in order, and the sender knows all space to be free again. |
| PacketProgress.PacketArrives | driver/bm_pt.c:259-395 | From every reachable state any packet whose padded length is below the ring size can be sent and is received whole, after everything sent before it. |
| MsgFifo.AddPointerIsModular | driver/bm_msgfifo.c:197-206 | One conditional subtraction is addition modulo the ring size if and only if the sum is below twice the size. |
| MsgFifo.PutMsgLays | driver/bm_msgfifo.c:226-272 | A message written at a position reads back from it field by field and argument by argument, in order, around the end too; no word past its length changes, nor those of duration and result. |
| MsgFifo.LaidReadsAs | driver/bm_msgfifo.c:226-272 | Whatever is laid in the ring reads back with its API number, size, handle, sequence number and arguments. |
| MsgFifo.FieldsRead | driver/bm_msgfifo.c:306-312 | Size and 64-bit handle read back from the ring are the ones written. |
| MsgFifo.Channel.GetFreeSlots | driver/bm_msgfifo.c:397-412 | Free words are the ring size minus the words in use minus one. |
| MsgFifo.Channel.CopyToMsgFifo | driver/bm_msgfifo.c:208-280 | The firmware reads at the old wp exactly the message given, arguments in order, no other word of the ring changes, and wp has advanced by its length; a quit message gets its header and leaves wp. |
| MsgFifo.Channel.InvalidatePendingApis | driver/bm_msgfifo.c:282-325 | Terminates, zeroes both handle words of exactly the messages of the closing file from rp to wp, and leaves every other word of the ring. |
| MsgFifo.Channel.RetireAtSwRp | driver/bm_drv.c:62-76 | sw_rp moves past the message at sw_rp, by the size read from the ring. |
| ApiQueue.LinedApis | driver/bm_msgfifo.c:63-68 | The API entries of the kfifo are exactly the queued APIs that are not retired, in order. |
| ApiQueue.CompletedIsLast | driver/bm_msgfifo.c:138-141 | A thread's completed number is that of its last retired API while its file is open. |
| ApiQueue.CompletedHandlesIsLast | driver/bm_msgfifo.c:138-147 | The same for a handle, over the APIs of all its threads. |
| ApiQueue.Completion.MsgIrqHandler | driver/bm_msgfifo.c:63-182 | Retires exactly the pending messages with the markers they free, updates the counters of open files only, and leaves no marker at the head. |
| ApiProtocol.RingHoldsUnretired | driver/bm_msgfifo.c:208-280 | In every run of senders, firmware, interrupt handler, device sync, invalidation, close and CPU channel, the words from sw_rp to wp are exactly the unretired messages, whole and in order, matching the API entries of the kfifo plus at most one pushed but unpublished; a full ring never looks empty. |
| ApiProtocol.UnretiredSurvive | driver/bm_api.c:743-778 | No step overwrites an unretired message, except that an invalidation may blank its handle. |
| ApiProtocol.SendArrives | driver/bm_api.c:700-778 | In every run: what a thread hands to a send is what the firmware finds at the old wp when the send is over - API number, arguments in order, file handle, and the next sequence number in 32 bits. |
| ApiProtocol.EveryAddPointerIsModular | driver/bm_msgfifo.c:197-206 | In every run every add_pointer call of send, retirement and invalidation is addition modulo the ring size. |
| ApiProtocol.HandlerNeverStarves | driver/bm_msgfifo.c:163-182 | The kfifo is never empty while messages are pending, and no marker is at its head when the handler is not running. |
| ApiSync.ThreadSyncIsSound | driver/bm_api.c:844-851 | In every run: cpl_api_seq equal to last_api_seq means everything the thread queued is retired, unless that last number is one the thread took for the CPU channel - whatever it sent on either channel before, and after timed-out sends took numbers back. |
| ApiSync.ThreadSyncExactly | driver/bm_api.c:844-851 | For every reachable state in which the thread is not sending: whatever everybody else does from there, a sync that succeeds means everything the thread queued is retired, if and only if that is so already or the last number is not one of the CPU channel that has completed there or, with the file open, is still pending; a number given up does no harm. |
| ApiSync.HandleSyncIsSound | driver/bm_api.c:873-884 | In every run: reaching the snapshot of h_send_api_seq means everything the handle had queued at the snapshot is retired, unless the handle took a number at or above the snapshot for the CPU channel; lower ones do no harm. |
| ApiSync.HandleSyncExactly | driver/bm_api.c:873-884 | For every snapshot and every later state of every run: as long as the handle starts no new CPU send, a sync with the number read means everything queued by the snapshot is retired, if and only if that is so already or the number is not reached and, with the file open, no number at or above it is pending or being sent on the CPU channel and at most the last message waited for has one. |
| ApiSync.SnapshotCovers | driver/bm_api.c:700-708 | That last clause holds for every snapshot whose number did not go to the CPU channel. |
| ApiSync.StaleSnapshot | driver/bm_api.c:700-708 | A run to a snapshot whose number, of the CPU channel and given up, was stored over those of two later sends: handle sync is not trusted although no CPU number is left. |
| ApiSync.FalseSync | driver/bm_api.c:700-708 | A run from the start after which both syncs succeed with the thread's XPU message unretired. |
| ApiSync.RetireNext | driver/bm_msgfifo.c:63-182 | From every reachable state, whatever firmware and handler are doing, steps of theirs alone retire exactly the next published message. |
| ApiProgress.ThreadSyncSucceedsExactly | driver/bm_api.c:844-851 | In every run, for a thread that sends on the XPU channel only: thread sync succeeds if and only if last_api_seq is the number of the last of its APIs that retired. |
| ApiProgress.SyncSucceedsAfterSend | driver/bm_api.c:700-778 | After a send that reached the ring, thread sync succeeds as soon as that API and the thread's earlier ones are retired, whatever others did meanwhile. |
| ApiProgress.GiveUpTakesBack | driver/bm_api.c:743-770 | Right after a send with number g timed out or found the kfifo full: thread sync succeeds if and only if cpl_api_seq is g - 1. |
| ApiProgress.SyncAfterGiveUpExactly | driver/bm_api.c:743-770 | After such a send, with everything the thread queued retired: thread sync succeeds if and only if number g - 1 is an API of the thread itself, so that nobody else took a number in between, or g was the first of all. |
| ApiProgress.AfterCpuGiveUp | driver/bm_api.c:743-744 | The same on the CPU channel, right after the send. |
| ApiProgress.OutcomeSettled | driver/bm_api.c:844-851 | With nothing of the thread outstanding on either channel, its sync succeeds at once or never while it waits. |
| ApiProgress.VainAfterGiveUp | driver/bm_api.c:743-744 | A run after which a thread with nothing outstanding waits in vain: another thread took a number before its send, which was given up. |
| ApiProgress.VainAfterLateCompletion | driver/bm_msgfifo.c:138-147 | A run after which a thread with nothing outstanding waits in vain without any failed send: its older API on the CPU channel completed after its last one. |
| ApiProgress.HandleSyncSucceedsExactly | driver/bm_api.c:873-884 | In every run, for a handle that sends on the XPU channel only: handle sync succeeds if and only if an API of the handle at or above the number read has retired, or nothing was sent before. |
| ApiProgress.HandleSyncAfterGiveUp | driver/bm_api.c:700-747 | A number given up is not taken back from the handle: until a later API of the handle retires, a handle sync started after it does not succeed. |
| ApiSync.SyncsFooledByCpuChannel | driver/bm_api.c:700-708 | Every run that ends with the thread's file open and the thread in no send extends, with kfifo, ring and retired messages left as they are, to a state in which both syncs succeed. |
| ApiProtocol.DeviceCplMonotone | driver/bm_msgfifo.c:122-126 | device_sync_cpl never decreases. |
| ApiProtocol.DeviceSyncIsSound | driver/bm_api.c:973-987 | device_sync_cpl reaches the number of a marker only after every API queued before that marker is retired. |
| ApiProtocol.InvalidationLandsOnWp | driver/bm_msgfifo.c:303-321 | However firmware and handler interleave, an invalidation always finds a whole message or stands exactly on wp, and each round takes one message. |
| ApiProtocol.InvalidationComplete | driver/bm_msgfifo.c:282-325 | When it ends, exactly the closing file's messages from its start to wp have lost their handle, the rest are unchanged and still whole in the ring. |
| ApiProtocol.OnlyHandleWordsChange | driver/bm_msgfifo.c:313-317 | A round writes no word but the two handle words of a message of the closing file. |
| ApiProtocol.RunInv | driver/bm_api.c:663-786 | Every state of every run satisfies the channel invariant. |
| LibRegistry.Registry.Load | driver/bm_api.c:109-177 | One caller at a time: a process that uses the name already changes nothing and gets 0 or -EINVAL by the md5; one that joins is recorded with exactly the record in use, which it is told; the first one gets a node under its own handle; the registry stays sound if and only if the caller does not already hold the same md5 under another name. |
| LibRegistry.Registry.Unload | driver/bm_api.c:179-239 | The caller's record goes; the node goes exactly with its last user, otherwise the current record is a remaining user, the first one when the caller was current; nothing else changes. |
| LibRegistry.JoinSoundExactly | driver/bm_api.c:148-151 | Counting one more user is right if and only if the process was not recorded. |
| LibRegistry.SuccessorExists | driver/bm_api.c:217-221 | With more than one user the search for a successor always finds one. |
| LibProtocol.RegistrySoundExactly | driver/bm_api.c:109-239 | In every interleaving of the sections of loads and unloads: finishing the loads in progress never gives a library two nodes and never counts its users wrong, if and only if no load was on its way to a process already recorded and no two loads of one library were in progress while it had no node or for one process. |
| LibProtocol.LoadAlone | driver/bm_api.c:109-177 | The three sections with nothing in between are the load of the registry class. |
| LibProtocol.RecordLasts | driver/bm_api.c:148-204 | In every run without a clash, whatever others load and unload in between: from the load of a library by a process on, what is recorded for it is the object its load was told to use, or its own handle if it was the first. |
| LibProtocol.UnloadNamesRecord | driver/bm_api.c:198-204 | The object an unload names is that record. |
| LibProtocol.TwoNodes | driver/bm_api.c:146-174 | A run in which two threads load a new library at the same time and it gets two nodes. |
| LibProtocol.CountedTwice | driver/bm_api.c:125-151 | A run of one thread that loads one library under two names and is counted as two users. |
| LibProtocol.NodeOutlivesUsers | driver/bm_api.c:196-233 | After such a load the unload leaves a node that counts a user it does not have. |
| DynRegistry.Registry.DynLoad | driver/bm_api.c:295-351 | One caller at a time: the load message is let out if and only if the library had no user; exactly one user is added, with the record its other users have, or the proposed one moved past as many records as listed nodes carry the name - so it is the proposed one if and only if none does. |
| DynRegistry.Registry.DynUnload | driver/bm_api.c:353-407 | One caller at a time: undoes the first load of the calling process, if it has one; the unload message is let out if and only if no user is left, and it is the step from one user to none exactly when there was a user before; the functions of that library, and no others, are forgotten then. |
| DynRegistry.Registry.GetFunc | driver/bm_api.c:241-293 | One caller at a time: a listed pair keeps its id and is not asked for again; any other gets an id that was never given to anything. |
| DynLibProtocol.DeviceFollowsUseExactly | driver/bm_api.c:295-407 | In every interleaving of the sections of loads and unloads and of sends that may fail: finishing the calls in progress tells the device to load only what it does not have and to unload only what it has and nobody uses, never gives users of a library different records, and leaves it on the device exactly while it has users, if and only if no first load was in progress beside another call that owed the device a message, no two unloads owed it one, none owed it one about a library it did not have, and no message was lost. |
| DynLibProtocol.TwoFirstLoads | driver/bm_api.c:310-345 | A run in which two first loads overlap: two load messages, two records. |
| DynLibProtocol.TwoLastUnloads | driver/bm_api.c:370-389 | A run in which two users unload a library at the same time and the device is told to unload it twice. |
| DynLibProtocol.FailedLoadStays | driver/bm_api.c:625-631 | A run in which the first load message is not sent, its node stays, and the next load is told that the library is there. |
| DynLibProtocol.UnloadWithoutUser | driver/bm_api.c:370-406 | A run in which a library nobody loaded is unloaded, and the device is told so. |
| FuncIdProtocol.IdsDistinctExactly | driver/bm_api.c:244-276 | In every interleaving, with the read and the write of f_id++ apart: the ids given out are all different if and only if no two increments ever overlapped. |
| FuncIdProtocol.PairListedOnceExactly | driver/bm_api.c:261-281 | In every interleaving: finishing the calls in progress never lists a pair twice, if and only if no two calls for one pair were ever in progress together. |
| FuncIdProtocol.OnePairTwoIds | driver/bm_api.c:261-281 | A run in which two callers ask for one new pair at the same time and it is listed with two ids. |
| FuncIdProtocol.TwoPairsOneId | driver/bm_api.c:275-276 | A run in which two callers ask for two new pairs at the same time and both are listed with one id. |
| FuncIdProtocol.NewIdAfterForget | driver/bm_api.c:389-397 | A run in which a pair is asked for again after the last unload of its library and gets a new id. |
| Flash.Device.Program | driver/spi.c:486-544 | Success means the image is in the flash even if erases or pages were lost; no cell past the erased sectors and the image changes; with a cooperating part an image covered by the erased sectors is always written; rejected exactly for an unknown part or a misaligned base. |
| Flash.Device.PageProgram | driver/spi.c:450-484 | Programming clears bits of at most one aligned page and touches nothing else. |
| Flash.Device.EraseSector | driver/spi.c:396-420 | Erases exactly the sector the 24-bit address lies in, or nothing without write enable. |
| Flash.Device.ProgramA53 | driver/bm_fops.c:690-719 | In 1 MiB pieces: success means the whole image is there for every image shorter than the flash, and nothing outside size / sector + 1 sectors changes; an image of exactly the flash size erases its own first sector and still succeeds. |
| Flash.EraseCountExact | driver/spi.c:489-507 | The 8-bit sector count is size / sector + 1 if and only if the size is below 255 sectors, and then it covers the image. |
| Flash.StaysAheadExactlyWhenInside | driver/spi.c:376-391 | The erased range stays in front of the base if and only if base plus the erased bytes do not exceed 16 MiB. |
| Flash.ImageAtTheEndErasesSectorZero | driver/spi.c:507-511 | An image that ends exactly at the end of the flash has the first sector erased as well. |
| Flash.AddressWrapIsInvisible | driver/spi.c:511-528 | The 32-bit wrap-around of addresses shows neither on the wire nor in the alignment. |
| Crc.Crc16 | driver/xmodem.c:22-39 | The two loops compute the remainder of the message times x^16 modulo x^16 + x^12 + x^5 + 1. |
| Crc.CrcIsTheRemainder | driver/xmodem.c:22-39 | The checksum, and no other value, is that remainder (section 2 of ITU-T Recommendation V.41, zero initial value). |
| Crc.ByteStepIsBitSteps | driver/xmodem.c:28-36 | Eight rounds of the inner loop are eight steps of the bitwise division. |
| Crc.ResidueIsZero | driver/xmodem.c:70-80 | Message plus two bytes has checksum 0 if and only if the bytes are the message's checksum in the order sent. |
| Crc.BurstDetected | driver/xmodem.c:22-39 | Messages of one length that differ only inside 16 consecutive bits have different checksums. |
| Crc.TwoBytesDetected | driver/xmodem.c:22-39 | Messages of one length that differ only inside two adjacent bytes have different checksums. |
| Xmodem.XmodemSend | driver/xmodem.c:86-130 | The sender's loops are a run of the line machine and succeed exactly when it ends in Done; when no ACK comes late, that is exactly when for every block some attempt within its time loses neither packet nor ACK; if no wait before the last block ended with an ACK still to come, success means the receiver has exactly the image, and failure leaves whole blocks from the front. |
| Xmodem.CarefulMeansComplete | driver/xmodem.c:41-118 | In every run with packets and ACKs lost anywhere, in which no wait before the last block ends with an ACK still to come, success means exactly the image and the receiver never falls out of step. |
| Xmodem.WaitMayEndExactly | driver/xmodem.c:41-55 | In any state so reached, a wait may end without danger if and only if no ACK is still to come or the block is the last; otherwise there is a careful way on to a success with the last block missing. |
| Xmodem.SuccessWithoutTheLastBlock | driver/xmodem.c:105-118 | For every image of two blocks or more: a run with one late ACK that reports success with the last block missing. |
| Xmodem.SendBlock | driver/xmodem.c:105-118 | The retry loop of a block is a run of the line machine that ends at the next block or in Failed. |
| Xmodem.PackageIntact | driver/xmodem.c:57-84 | Every packet sent passes the receiver's header, complement and checksum tests. |
| Timer.GetCycle | driver/bm_timer.c:9-24 | Always ends with a value between the counter at entry and at exit; within 2^32 ticks after at most one extra round, with the counter at one of the reads. |
| Timer.Context.Start | driver/bm_timer.c:40-46 | The timestamp belongs to a counter value not before the call. |
| Timer.Context.Remain | driver/bm_timer.c:52-67 | 0 only after strictly more than the timeout of real time, and always once one more millisecond has passed; before that the milliseconds left, right to a millisecond of real time; a negative timeout counts as a huge one, and the distance from it to the elapsed time comes back modulo 2^32. |
| Timer.ElapsedMs | driver/bm_timer.c:26-31 | The difference of two floored timestamps exceeds t only if more than t milliseconds passed, and does once t + 1 did. |
| FreqScaling.Database.RecordBoardPower | driver/bm_attr.c:2646-2665 | power_total stays the sum of the last ten samples modulo 2^32, also across the index reset. |
| FreqScaling.ExactWhileSmall | driver/bm_attr.c:2654-2656 | Samples below a tenth of 2^32 never make the total wrap or go below zero. |
| FreqScaling.Database.Controller | driver/bm_attr.c:2743-2809 | The level error is never reported, and level, counter and voltage change as RunController says. |
| FreqScaling.Database.ScaleVoltFreq | driver/bm_attr.c:2831-2863 | One mission-mode tick, tied to Tick: a peak below the reliable level ends exactly there with its voltage and the tick count started over; any other change is by one level, or to the initial level of an idle chip; the voltage is that of the new level. |
| FreqScaling.LevelStaysInTable | driver/bm_attr.c:2796-2800 | On every run the level indexes the table. |
| FreqScaling.LevelMovesForAReason | driver/bm_attr.c:2764-2856 | A tick makes the level slower if and only if a peak is clipped, the controller runs at high power above the slowest level, or an idle chip is put back to its initial level; and faster if and only if the controller runs for the 60th time at low power and may go up. |
| FreqScaling.LevelAfterTick | driver/bm_attr.c:2764-2856 | Where a tick takes the level: a clipped peak to the reliable level, high power one level slower, the sixtieth low run one level faster, an idle chip to its initial level; after a peak the level is at most one faster than the reliable one. |
| FreqScaling.PeaksAreClipped | driver/bm_attr.c:2834-2839 | The same for every peak of every run. |
| FreqScaling.TicksSince | driver/bm_attr.c:2832-2842 | On every run freq_scal_count is the number of ticks since the last clip, controller run or idle reset, so the controller runs on the 31st. |
| FreqScaling.IdleSince | driver/bm_attr.c:2843-2855 | On every run idle_count is the number of idle ticks since the chip was last seen busy or put back. |
| FreqScaling.PwrCountIsTicks | driver/bm_attr.c:2833-2862 | On every run board_pwr_count is the number of ticks modulo 4. |
| FreqScaling.UpStepsAreSpaced | driver/bm_attr.c:2764-2799 | On every run two up-steps are at least 60 controller runs and at least 60 * 31 ticks apart. |
| FreqScaling.UpStepPrecededBy | driver/bm_attr.c:2764-2799 | On every run an up-step ends a stretch with 60 controller runs at low power and no reset of the count; these runs follow each other without another controller run between them if and only if none of the stretch was at high power on the slowest level. |
| FreqScaling.FirstUpStep | driver/bm_attr.c:2831-2862 | The first up-step comes no earlier than 60 controller runs and 60 * 31 ticks after the start. |
| FreqScaling.HighPowerResetsExactlyAboveBottom | driver/bm_attr.c:2765-2771 | A run at high power restarts the low-power count if and only if the level is not the slowest (or the count is 0). |
| FreqScaling.LowRunsNeedNotBeConsecutive | driver/bm_attr.c:2765-2776 | On both boards: a run from the start in which the controller run right before the one that steps up was at high power. |
| Staging.Stage.CalculateStageIndex | driver/bm_memcpy.c:86-98 | Takes the first free slot, and fails exactly when the bitmap is full. |
| Staging.Memcpy | driver/bm_memcpy.c:355-386 | Success means exactly Moved(size) bytes were copied in order and nothing else changed; it fails if and only if the DMA of some chunk does, and leaves the slots before that one; the slot is given back. |
| Staging.PassesExact | driver/bm_memcpy.c:368 | The 32-bit pass count is the number of started slots up to 2^32 minus a slot, and 0 above. |
| Staging.StepLenExact | driver/bm_memcpy.c:369-372 | Chunks are full slots except the last, which ends exactly at size. |
| StagingProtocol.SlotsAreExclusive | driver/bm_memcpy.c:118-160 | In every interleaving no two transfers hold one slot, and their parts of the stage buffer are disjoint and inside it. |
| StagingProtocol.FinishedMeansDelivered | driver/bm_memcpy.c:355-423 | In every interleaving of transfers in both directions (fill, then DMA, or DMA, then empty) with DMAs that may fail, a finished transfer delivered exactly its own data, complete if and only if its size is at most 2^32 minus a slot. |
| StagingProtocol.NoSlotLeaks | driver/bm_memcpy.c:100-116 | A bit is set if and only if some transfer holds the slot. |
| StagingProtocol.CanFinish | driver/bm_memcpy.c:355-423 | From every reachable state every transfer that has not failed can be finished, whatever slots the others hold, and has then delivered its data. |

## Left out

- CPU channel of the message FIFO: only its effect on the shared sequence numbers is modelled, not its list, flags and ring.
- Waiting and liveness: timeouts and completions are free choices; what is proved is what holds when a call succeeds, and, for several protocols, that every run can be continued until calls succeed.
- BM_API_QUIT in runs: the protocol never sends it, because the code leaves it unpublished; the copy method has the branch.
- Interrupt counting: the number of pending message interrupts comes from chip code that is not part of this model; it is taken to be at most the messages finished and not retired.
- Firmware: it only takes messages in order, reports results in order after taking them, and writes the two result words.
- Handle and thread identity: a closed file's handle is not used again, so a stale kfifo entry never meets a new file at the same address.
- Return value of bmdrv_device_sync_api, which is 0 early when the CPU channel is empty (driver/bm_api.c:957-963): the marker theorems are about device_sync_cpl.
- User copies and allocations in the kernel are taken to succeed; file descriptors and dma-buf export are left out.
- MsgFifo.Channel.CopyToMsgFifo: filling the ring and publishing wp is one step in ApiMachine, since nobody reads words at or past wp before that.
- PacketRing.MsgChannel.MsgRecv: needs the tail aligned and a length that fits the ring, because any other length makes the code read memory that is not part of this model; PacketProtocol shows that this always holds between the two sides.
- PacketProtocol: queue lengths are multiples of 8, as both sides configure them; with others the plain length load could run over the end.
- PoolProtocol.RunInv: one chunk; chunks share no memory, and GenPool adds them up for one caller at a time.
- GenPool.Pool.Free: the range must lie within the words of the chunk's bitmap, past which the code would read memory that is not part of this model; size 0 is not described for a held block.
- ZeroArea.FindNextZeroAreaOff: indices are unbounded, so sums that overflow an unsigned long are not described; alignment is by rounding, of which the code's mask is the power-of-two case; kernels from 3.18.69 on use their own search.
- Fixed and order-aligned allocation algorithms, pool destruction and the DMA helpers would only add easy members.
- Gmem.Device.GmemAlloc: a heap is a pool with one chunk, as driver/bm_bgm.c:121-127 creates it; addresses handed out are above 0.
- Gmem heaps of other kinds than carveout, mappings and statistics.
- Timer.GetCycle: the 64-bit counter does not wrap during a call.
- Flash.Device.ProgramA53: images below 2 GiB; a part that is still busy after the waiting time is taken to have finished.
- Flash.Device.Program: what is read back is what the cells hold.
- Xmodem.XmodemSend: line noise is a lost packet, a lost ACK or a late one; the receiver is that of the protocol and is not part of the repository; the final acknowledgement is ignored, as in the code; a block's timer is a number of attempts.
- LibRegistry.Registry.Load: process handles are 1 to 49, as the callers use them; the write to a freed node at driver/bm_api.c:233 is not modelled.
- FuncIdProtocol.IdsDistinctExactly: ids do not overflow an int; an increment is one read and one write.
- DynRegistry.Registry.DynLoad: the rec array and the clean-up on close (driver/bm_api.c:534-578) are left out.
- DynLibProtocol.DeviceFollowsUseExactly: forgetting a library's functions is a step of FuncIdProtocol, which shares no state with the library list.
- Staging: transfers through an IOMMU and the firmware comparison, which uses the whole stage buffer, are left out; the user-space copies share the same chunk loop.
- FreqScaling: setting voltage and frequency is recorded, not its effect on the board; the modes before mission mode and other boards are left out.
- Register plumbing, probing, board switches, sensors, fans, procfs and sysfs output, VPU, JPU and VPP: input and output without state worth proving.
