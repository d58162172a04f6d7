# Frame grabber driver core: a model and its properties

This project models the stateful core of the microEnable 6 frame grabber driver and proves what its
callers rely on. Six components are covered.

* **DMA acquisition channel** (`ChannelModel`, `ChannelInvariant`, `ChannelRuns`, `DmaChannel`,
  `WaitProtocol`, `FrameWindow`). The buffers of a head move between five lists. The value model gives the
  effect of each critical section; the class works in place, as the driver does, and every method is proved
  against its function. Runs are arbitrary interleavings of critical sections. Sleeping and waking is a
  state machine of its own, at the granularity of the driver's locks.
* **Scatter-gather lists** (`Bits`, `SglEntry`, `SglSize`, `SglChain`, `SglMerge`, `SglFill`). Five 86-bit
  entries are packed into seven 64-bit words by three independent encoders; chains of blocks are built,
  walked by the engine, link by link, and released.
* **CoaXPress frontend** (`CxpModel`, `CxpMeaning`, `CxpTables`, `CxpCoherence`, `CxpRemap`, `CxpRuns`,
  `CxpFrontend`). Register writes are skipped when a cache already holds the value; some caches belong to the physical port
  and some to the logical one, and a port map change must carry every camera's settings along.
* **JTAG controller** (`JtagModel`, `JtagTransfer`, `JtagController`). A shadow state stands for the TAP
  controller of section 6.1 of IEEE Std 1149.1-2013.
* **Messaging DMA ring and event packet demultiplexer** (`MessagingRing`, `UiqDemux`).
* **Burst engine** (`Burst`). Read shots are requested ahead over a bounded device FIFO.

`Lists` and `Arith` hold facts about duplicate-free sequences and remainders.

Machine words are sequences of bits where bits matter and numbers with explicit wrap-around where they are
added. What the hardware answers (handshakes, waits, acknowledged frames, failing allocations) is a
parameter of the operation concerned. Hardware, as far as properties speak of it, is modelled: the engine
that walks a chain, the TAP controller, the FIFO device.

## Conditions on callers

* A buffer is queued only while it is in the free list. The driver warns about others and goes on.
* A buffer queued after a stop is not unregistered before the next start. `FreeBufferKeeps` shows that this is
  exactly what the counters need, `FreeAfterQueueUnderflows` what happens otherwise.
* `men_free_userbuf` is not called with index num_sb, which it accepts and which is behind the table
  (linux/menable_mem.c:328).
* A head is not shared by two channels.
* Buffers are made of whole 32-bit words. The driver takes other lengths; a scatter list entry then stands for less than
  its segment, or for up to 1023 bytes more if the last transfer is shorter than a word (`KernelDecodes`).
* CoaXPress settings that belong to a camera are changed only after a port map was selected (`Mapped`). Before that
  the lookup gives port 15, which is behind the port table.
* Queue depths and shot sizes of the burst engine are positive.

## Where code and comments disagree

The model follows the code.

* `men_last_blocked` says older buffers go to the free list (linux/menable_mem.c:688-691); they go to ready.
* `men_unblock_buffer` says it moves a buffer to free (linux/menable_mem.c:723-725); it moves it to ready.
* `men_clean_bh` says that selective mode makes all but free buffers ready (linux/menable_dma.c:600-601); only
  buffers already named ready become ready.
* `men_create_sgl_v2` returns one block too many when the last block is full (`UsedIff`). Its size word is wrong for a
  misaligned chunk inside the first payload (`ShortBufferOverruns`) and for one that reaches beyond 2^15 payloads from
  the boundary before it (`GroupSizeDecodesIff`), which merging produces (`LongBufferLost`).
* When the head is gone after the wait, `fg_start_transfer` has cancelled the stop work and leaves the channel stopping
  (`AwaitStop`).
* A raw JTAG write whose answer is lost keeps the old shadow state, wherever its TMS bits have led the TAP (`WriteRaw`).
* `men_generate_page_group_size` gives the transfer count the width of the other field (`LibraryIff`).
* `cxp_set_port_map` says it puts ports into reset first (lib/frontends/cxp_frontend.c:949); it does not, and
  it reports success when a speed change was not acknowledged (`UplinkCarriedIff`, `SwapLosesUplink`).
* `me6_free_sgl` stops early when the last block lives at bus address zero (`FreeSgl`).
* In raw mode, most significant bit first, the JTAG TMS word is not shifted up as the data word is
  (`RawAlignedIff`).
* On a board with five CoaXPress ports the number of links of the last logical port never reaches the downscaling
  register (lib/frontends/cxp_frontend.c:863-866, `DownscaleTells`). One of the shifts for it has a negative count,
  which C leaves undefined; whatever it yields, the mask has no bit in the 8-bit value.
* A zero-byte read burst leaves the first-shot flag set (`ReadBurst`).

## Model

| member | source | states |
|---|---|---|
| `ChannelRuns.AlwaysInv` | linux/menable_mem.c:475-758 | In every state of every run of a channel (start, frame interrupts, unlock, next, last, queue, free, create, stop, clean-up, timeout, release, in any order) each counter is the length of its list, every registered buffer is in exactly the list its listname says, the dummy occurs at most once and only at the head of hot, and frame and buffer accounting hold |
| `ChannelRuns.ApplyKeeps` | linux/menable_mem.c:475-758 | Every critical section of the driver keeps that invariant |
| `ChannelRuns.Partition` | linux/menable.h:108-200 | Free, ready, grabbed, hot (without the dummy) and locked buffers partition the registered ones, and the five counters add up to their number plus the dummy |
| `ChannelRuns.UnlockAllClears` | linux/menable_ioctl.c:290-312 | After unlock-all nothing is grabbed or locked, so neither BUG_ON fires |
| `ChannelRuns.FramesConserved` | linux/menable_mem.c:475-664 | Until stopped, N minus transfer_todo is the latest frame number, which is goodcnt plus frames caught by the dummy; at most N buffers (none for a negative N) go to the hardware, at most dma_fifo_length are outstanding, and they complete in the order they were handed over |
| `ChannelRuns.AtMostRequested` | linux/fgrab.c:125-142 | N is the number of frames the start asked for, -1 meaning as many as can be counted, all along the acquisition |
| `ChannelRuns.TailEnds` | linux/menable6.c:960-996 | At the end of the frame interrupt a started acquisition goes to STOPPING if and only if all N frames are there; if it goes on after new frames, the hardware has as much as it can take |
| `ChannelRuns.RunEnds` | linux/fgrab.c:161-188 | Along a run a stop of a started acquisition with frames to do leads to STOPPING with none, the clean-up and the timeout to STOPPED |
| `ChannelRuns.RoundRobin` | linux/menable_dma.c:626-636 | In the free-running modes with all slots registered, frame k (from zero) lands in buffer (startbuf + k) mod n, in every state until a stop or an unregistration |
| `ChannelRuns.OrderKeptAlong` | linux/menable_mem.c:616-664 | Between two starts nothing changes the mode, the number of frames asked for or the order recorded at the start |
| `ChannelRuns.NextIsOldest` | linux/menable_mem.c:671-686 | In every reachable state next-image hands out the grabbed frame with the smallest number and locks it |
| `ChannelRuns.LastIsNewest` | linux/menable_mem.c:693-720 | In every reachable state act-image hands out the newest frame and gives all older ones back to ready, oldest first |
| `ChannelRuns.FreeAfterQueueUnderflows` | linux/menable_ioctl.c:412-435 | From a state that satisfies the invariant, a buffer queued after the stop and then unregistered takes the ready counter below zero |
| `ChannelRuns.TimedOutReached` | linux/menable_dma.c:253-285 | The state of that counterexample is reached by one start and one timeout |
| `ChannelInvariant.FreeBufferKeeps` | linux/menable_mem.c:321-380 | Unregistering a buffer keeps the invariant if and only if the buffer was not queued while the channel was stopped |
| `ChannelInvariant.FreeBufferMembers` | linux/menable_mem.c:353-375 | Exactly the list named by listname loses the buffer |
| `ChannelInvariant.FreeBufferMeans` | linux/menable_mem.c:321-380 | The slot is empty afterwards unless the hardware has the buffer; a refused call changes nothing |
| `ChannelInvariant.QueueMaxKeeps` | linux/menable_mem.c:616-664 | Feeding the hardware keeps the invariant, and in blocking mode it never returns with frames to do and an empty hot list |
| `ChannelInvariant.QueueMaxFeeds` | linux/menable_mem.c:616-664 | Afterwards ready is empty, or the hardware has all frames still to do, or it is full; the ready buffers moved are the oldest, in order, behind those already there; the dummy is queued exactly if a blocking acquisition with an active head has nothing else for the hardware; nothing happens if it has enough |
| `ChannelInvariant.TakeReadyKeeps` | linux/menable_mem.c:643-660 | Moving any admissible number of ready buffers to hot keeps order, partition and accounting |
| `ChannelInvariant.FrameDoneKeeps` | linux/menable_mem.c:475-564 | A completed frame keeps the invariant in all four modes, dummy or not |
| `ChannelInvariant.FrameLands` | linux/menable_mem.c:475-564 | A completed frame goes to the end of grabbed in blocking mode, of free in selective mode, of ready in the free-running modes, under that list name and with its frame number; one in the dummy, one without hardware buffer and one without head count as lost and go nowhere |
| `ChannelInvariant.RotateStep` | linux/menable_mem.c:521-534 | In the free-running modes landed, hot and ready together stay the repeated initial order |
| `ChannelInvariant.InterruptTailKeeps` | linux/menable6.c:960-996 | So does the end of the frame interrupt |
| `ChannelInvariant.NextBlockedKeeps` | linux/menable_mem.c:671-686 | Next-image keeps the invariant, frame order included |
| `ChannelInvariant.LastBlockedKeeps` | linux/menable_mem.c:693-720 | Act-image keeps the invariant |
| `ChannelInvariant.UnblockKeeps` | linux/menable_mem.c:727-758 | Unlocking any slot keeps the invariant, also when it feeds the hardware |
| `ChannelInvariant.UnblockGivesBack` | linux/menable_mem.c:727-758 | A grabbed or locked buffer goes behind all others that wait for the hardware, which is fed if it has at most one; any other slot is left alone, and so is every other buffer |
| `ChannelInvariant.QueueBufferKeeps` | linux/menable_ioctl.c:412-445 | Queueing a free buffer keeps the invariant in every phase and mode |
| `ChannelInvariant.QueueBufferMeans` | linux/menable_ioctl.c:412-445 | After a stop only the list name changes; in selective mode the buffer goes behind those that wait and the hardware is fed; in any other acquisition nothing happens |
| `ChannelInvariant.CreateBufferKeeps` | linux/menable_mem.c:144-256 | Registering a buffer keeps the invariant |
| `ChannelInvariant.CreateBufferMeans` | linux/menable_mem.c:144-256 | An empty slot gets a buffer that is last in free; an occupied or missing slot changes nothing |
| `ChannelInvariant.VisitedOnce` | linux/menable_dma.c:626-628 | The clean-up loop visits no slot twice |
| `ChannelInvariant.PicksExact` | linux/menable_dma.c:626-657 | It makes exactly the right slots ready or free, each once |
| `ChannelInvariant.PicksGrow` | linux/menable_dma.c:626-657 | In the order in which they are visited |
| `ChannelInvariant.CleanLists` | linux/menable_dma.c:604-660 | The clean-up establishes the partition from any list names whatsoever |
| `ChannelInvariant.StartKeeps` | linux/fgrab.c:125-146 | Starting establishes the invariant from any previous state, also when the start fails |
| `ChannelInvariant.StartMeans` | linux/fgrab.c:125-146 | The channel is started if and only if the hardware answers and there is a buffer or the mode is selective, else stopped; counters and frame number are zero, and the hardware has as much as it can take |
| `ChannelInvariant.CleanSyncKeeps` | linux/menable_dma.c:310-324 | Cleaning up a stopping channel keeps it |
| `ChannelInvariant.EndsMean` | linux/fgrab.c:161-188 | Stop, timeout, clean-up and giving up the head: phase and frames to do, and that none of them moves a buffer |
| `DmaChannel.DmaChan.MoveHotBuffer` | linux/menable_mem.c:475-564 | Moves the oldest hot buffer exactly as the specification function says, for every branch |
| `DmaChannel.DmaChan.OnFrame` | linux/menable6.c:933-958 | One turn of the frame loop: move, then store the frame number; returns the buffer |
| `DmaChannel.DmaChan.OnInterrupt` | linux/menable6.c:914-1011 | The whole frame interrupt, with overflowed counter or without active head too |
| `DmaChannel.DmaChan.QueueReady` | linux/menable_mem.c:648-660 | The queueing loop moves the first n ready buffers to hot in order and resets their frame numbers |
| `DmaChannel.DmaChan.QueueAsManyAsPossible` | linux/menable_mem.c:616-664 | The loop with its three-way minimum refines the one-step specification |
| `DmaChannel.DmaChan.NextImage` | linux/menable_mem.c:671-686 | New state and returned buffer |
| `DmaChannel.DmaChan.ActImage` | linux/menable_mem.c:693-720 | The give-back loop refines the specification; returns the newest buffer |
| `DmaChannel.DmaChan.UnblockBuffer` | linux/menable_mem.c:727-758 | New state for every list name, empty slots included |
| `DmaChannel.DmaChan.UnblockAll` | linux/menable_ioctl.c:290-301 | The loop over all slots; both BUG_ON conditions are asserted |
| `DmaChannel.DmaChan.EnqueueBuffer` | linux/menable_ioctl.c:412-445 | New state and result; refused exactly in a running acquisition that is not selective |
| `DmaChannel.DmaChan.UnregisterBuffer` | linux/menable_mem.c:321-380 | New state and result for every index but num_sb, also where listname and list disagree |
| `DmaChannel.DmaChan.RegisterBuffer` | linux/menable_mem.c:144-256 | New state and result; an occupied or missing slot changes nothing |
| `DmaChannel.DmaChan.CleanLists` | linux/menable_dma.c:604-660 | The clean-up loop refines its specification for every start buffer |
| `DmaChannel.DmaChan.CleanSynchronously` | linux/menable_dma.c:310-324 | New state |
| `DmaChannel.DmaChan.StartTransfer` | linux/fgrab.c:16-158 | Result and new state for every branch on an existing head and channel: invalid parameters, busy, the three ways a pending stop ends, a head that is gone or another after the wait, failed and successful start |
| `DmaChannel.DmaChan.StopTransfer` | linux/fgrab.c:161-188 | New state; nothing happens unless the channel is started with frames to do |
| `WaitProtocol.AlwaysInv` | linux/menable_dma.c:186-278 | The invariant of the wake-up protocol holds in every interleaving of its lock-granularity steps |
| `WaitProtocol.InvKept` | linux/menable6.c:931-1006 | Every single step keeps it |
| `WaitProtocol.NoLostFrame` | linux/menable6.c:960-965 | Whenever no interrupt is being handled, every waiter still asleep wants a frame beyond goodcnt |
| `WaitProtocol.NoneLeftBehind` | linux/menable_dma.c:310-324 | Once the clean-up section of a stopped channel has run, no listed waiter is asleep and none can fall asleep |
| `WaitProtocol.WokenFindsFrame` | linux/menable_dma.c:238-250 | A waiter woken by an interrupt finds its frame if and only if the channel was not restarted meanwhile or the new acquisition has got that far already |
| `WaitProtocol.RegisterOutcome` | linux/menable_dma.c:186-252 | A wait for a frame already there finds it, one in an acquisition that is not running times out, any other is listed asleep; no other wait is affected |
| `WaitProtocol.LeaveOutcome` | linux/menable_dma.c:238-286 | Whatever ended a wait, it finds its frame if and only if that is there when the waiter looks; it is off the list then, and no other is |
| `WaitProtocol.EndingSteps` | linux/menable6.c:960-1006 | An interrupt that leaves no frames to do, and a stop, end in STOPPING; clean-up and timeout in STOPPED with every sleeper completed |
| `WaitProtocol.RestartHidesFrame` | linux/menable_dma.c:238-250 | A run in which a restart makes a woken waiter report a timeout |
| `FrameWindow.RebuiltIff` | linux/menable_dma.c:189-214 | The 32-bit path rebuilds a frame number from its low 31 bits if and only if it is within reach of the current one (zero bits mean the current frame) |
| `FrameWindow.Rebuilt` | linux/menable_dma.c:153-214 | It does so for every frame up to 2^30 ahead whose low 31 bits are not all zero |
| `FrameWindow.TargetNear` | linux/menable_dma.c:208-213 | Every rebuilt number lies between latest - (2^30 - 1) and latest + 2^31 - 1 and has the given low bits |
| `FrameWindow.RelativeTarget` | linux/menable_dma.c:189-195 | A relative wait skips frame number zero when the 64-bit counter wraps |
| `FrameWindow.AbsoluteTarget` | linux/menable_dma.c:200-214 | A positive frame number of a 64-bit process is the target itself |
| `SglEntry.ReadWritten` | linux/menable6.c:1118-1196 | Decoding an entry gives back address, 23-bit size and last flag |
| `SglEntry.ReadOther` | linux/menable6.c:1118-1196 | Writing one entry leaves the other four as they were |
| `SglEntry.EntryLayout` | linux/menable6.c:1118-1196 | Entry idx is the last flag, bits 63 to 2 of the address and 23 bits of size, side by side from bit 18 + 86 idx on; every other bit of the block stays |
| `SglEntry.UnrolledIff` | linux/menable6.c:1118-1196 | The unrolled encoder writes the same seven words as the reference for every address, size and flag, if and only if the entry is not the first or the reserved bits were zero |
| `SglEntry.SetSglEntry` | linux/menable6.c:1118-1196 | In place: equals the reference entry on a block with zero reserved bits, and keeps them zero |
| `SglEntry.SetBlockField` | lib/dma/me6_sgl.c:77-98 | The field loop replaces exactly the bits of the field, across word boundaries, for every position and width |
| `SglEntry.SetBlockEntry` | lib/dma/me6_sgl.c:100-115 | Writes all fields side by side |
| `SglEntry.Dev2PcIsEntry` | lib/dma/me6_sgl.c:314-330 | The device-to-host layout is the reference entry |
| `SglEntry.SetEntryDev2Pc` | lib/dma/me6_sgl.c:287-295 | In place: the library entry is the reference entry |
| `SglEntry.Pc2DevReadsBack` | lib/dma/me6_sgl.c:332-350 | The host-to-device layout reads back, leaves other entries alone, and fills the block exactly |
| `SglEntry.SetBitsV2` | lib/dma/sgl_v2.c:30-57 | Writes exactly the field, and refuses exactly the values that do not fit |
| `SglEntry.OneBitTooMany` | lib/dma/sgl_v2.c:47-50 | The extra bit each chunk extracts is shifted out or zero |
| `SglEntry.SetEntryV2` | lib/dma/sgl_v2.c:59-73 | The second library encoder writes the reference entry for values that fit |
| `SglEntry.EncodeV2` | lib/dma/sgl_v2.c:59-73 | For the page group of any address, the entry is the reference entry of that address |
| `SglSize.KernelDecodes` | linux/menable6.c:1210-1250 | For every 4-aligned offset, every length within the transfer limit and payload 128 to 1024 the size word decodes to the exact byte length if and only if that is a multiple of four, and to no more than it if and only if the last transfer has a word at least; also where a field wraps to zero |
| `SglSize.LibraryIff` | lib/dma/me6_sgl.c:117-169 | The library encoder agrees with it if and only if there are fewer than 256 transfers or the maximum number |
| `SglSize.PageBounded` | lib/dma/me6_sgl.c:158-168 | So both agree on entries that stay within a page |
| `SglSize.GroupSizeIff` | lib/dma/sgl_v2.c:75-85 | The second library encoder agrees if and only if the chunk starts on a payload boundary or reaches beyond the first one |
| `SglSize.GroupSizeDecodes` | lib/dma/sgl_v2.c:75-85 | What its word decodes to for every chunk of up to 2^15 payloads: the last transfer alone when the count wraps, the offset added within the first payload, else the length in whole words |
| `SglSize.GroupSizeDecodesIff` | lib/dma/sgl_v2.c:75-85 | It decodes to the right length if and only if that is a multiple of four, reaches no further than 2^15 payloads from the boundary before the chunk, and the chunk starts on a boundary or reaches beyond the next one |
| `SglSize.TransfersOverflow` | lib/dma/sgl_v2.c:75-85 | The transfer count is one too high for its field exactly for the chunks that reach further |
| `SglChain.LinkReadsBack` | linux/menable6.c:1267-1342 | The link word gives back the address of the next block |
| `SglChain.FreeSgl` | linux/menable6.c:1253-1277 | Releases every block once, under its own bus address, if and only if the last block does not live at address zero |
| `SglChain.AllFreedMeans` | linux/menable6.c:1253-1277 | The addresses under which blocks are released are those they were allocated under |
| `SglChain.CreateUserBuffer` | linux/menable6.c:1287-1364 | Builds the chain if the pool suffices; otherwise gives back every allocated block once |
| `SglChain.BuildBlocks` | linux/menable6.c:1307-1346 | The construction loop encodes segment after segment and links full blocks |
| `SglChain.LinkLeads` | linux/menable6.c:1267-1342 | A link word has the valid bit, the address from bit 2 on in its bits 1 to 62, and leads to the address it was made from |
| `SglChain.EngineReads` | linux/menable6.c:1307-1346 | From the first address, in any memory that holds the chain, the engine follows the link words and reads exactly the entries in use, in order |
| `SglChain.EngineNeedsLink` | linux/menable6.c:1267-1277 | Without a last entry and a valid link the engine goes no further |
| `SglChain.MemoryHolds` | linux/menable6.c:1290-1342 | Every chain of pool blocks fits into one memory |
| `SglChain.ChainDecodes` | linux/menable6.c:1307-1346 | From the address of a built chain the engine reads one entry per segment, in order, last only on the final one |
| `SglChain.ChainTransfersIff` | linux/menable6.c:1307-1346 | What it then transfers is the scatter list if and only if all lengths are multiples of four, and stays within every segment if and only if no last transfer is shorter than a word |
| `SglChain.WantedMeans` | linux/menable6.c:1310-1324 | One entry stands for its segment: address, and length as KernelDecodes says |
| `SglMerge.ContinuesIff` | lib/dma/sgl_v2.c:111-115 | The guard of the merging loop means adjacent, not across the end of the address space, and within the maximal chunk |
| `SglMerge.ChunksCover` | lib/dma/sgl_v2.c:95-139 | Merging keeps exactly the bytes in exactly the order, for descriptor arrays of any length |
| `SglMerge.ChunkBounds` | lib/dma/sgl_v2.c:90-118 | No chunk is longer than 2^15 payloads, and each starts with a descriptor it covers |
| `SglMerge.ChunksParted` | lib/dma/sgl_v2.c:111-118 | Merging goes as far as it can: every chunk but the first starts with a descriptor that the chunk before could not take |
| `SglMerge.MergeAdjacent` | lib/dma/sgl_v2.c:111-118 | The inner loop finds the end of the chunk |
| `SglMerge.CreateSglV2` | lib/dma/sgl_v2.c:87-142 | The builder lays out exactly the merged chunks, last flag and links included |
| `SglMerge.LaidReads` | lib/dma/sgl_v2.c:97-138 | Every chunk reads back at its place, used blocks are linked to the next used one, all others are untouched |
| `SglMerge.ChunkEntryMeans` | lib/dma/sgl_v2.c:124-134 | The entry of any chunk has the right start always and the right length exactly under the condition of GroupSizeDecodesIff |
| `SglMerge.EngineReadsChunks` | lib/dma/sgl_v2.c:97-138 | From the first block the engine follows the links and reads one entry per chunk, in any memory that holds the blocks |
| `SglMerge.MergedTransfersIff` | lib/dma/sgl_v2.c:87-142 | It transfers exactly the chunks if and only if all meet that condition, and then exactly the bytes of the descriptors, in order |
| `SglMerge.LongBufferLost` | lib/dma/sgl_v2.c:90-127 | For every payload size: a contiguous buffer of 2^15 payloads that starts 64 bytes into a page becomes one chunk, of which 64 bytes are transferred |
| `SglMerge.ShortBufferOverruns` | lib/dma/sgl_v2.c:75-85 | For every payload size: for a buffer of 32 bytes that starts 64 bytes behind a payload boundary 96 bytes are transferred |
| `SglMerge.UsedIff` | lib/dma/sgl_v2.c:141-141 | The returned block count is exact unless the entry count is a multiple of five, and one too high then |
| `SglFill.PiecesCover` | lib/dma/me6_sgl.c:195-237 | The page-bounded pieces cover exactly the bytes of the buffer, in order |
| `SglFill.PieceBounds` | lib/dma/me6_sgl.c:195-237 | Every piece starts on a word and stays in its page, and has whole words if the buffer has |
| `SglFill.PieceLongest` | lib/dma/me6_sgl.c:195-237 | Every piece is as long as its page or the rest of the buffer allows |
| `SglFill.PieceMeans` | lib/dma/me6_sgl.c:278-287 | Its entry decodes to its address, and to its length if and only if that is a multiple of four |
| `SglFill.FillBlocks` | lib/dma/me6_sgl.c:239-302 | The loop appends the pieces of a batch from any entry number on |
| `SglFill.BatchReads` | lib/dma/me6_sgl.c:250-298 | Every piece reads back at its entry number |
| `SglFill.BatchKeeps` | lib/dma/me6_sgl.c:250-298 | A batch leaves all entries of earlier batches alone, also in a shared block |
| `SglFill.BatchLinks` | lib/dma/me6_sgl.c:184-193 | Every block a batch opens is linked from the one before and ends the list until the next is opened |
| `SglFill.BatchesJoin` | lib/dma/me6_sgl.c:239-302 | Filling batch after batch is filling once with all the pieces |
| `SglFill.FillsOnce` | lib/dma/me6_sgl.c:239-302 | So for any number of calls, empty buffers among them, if the last one is not empty |
| `SglFill.EngineReadsPieces` | lib/dma/me6_sgl.c:239-302 | From the first block of a complete list the engine follows the links and reads one entry per piece, in any memory that holds the blocks |
| `SglFill.BuffersTransferred` | lib/dma/me6_sgl.c:239-302 | For any number of word-aligned buffers filled one call after the other the engine, started at the first block, transfers exactly their pieces if and only if every buffer has whole words, and then exactly their bytes, in order |
| `SglFill.BlockArray` | lib/dma/me6_sgl.c:176-193 | The blocks of an array, 64 bytes apart, have bus addresses fit for links, also across pages |
| `CxpTables.CodeInjective` | lib/frontends/cxp_frontend.c:300-311 | Two 64-bit map words translate all ports alike only if they are equal |
| `CxpTables.CodeRoundTrip` | lib/frontends/cxp_frontend.c:300-311 | Encoding and translating a map are inverse |
| `CxpTables.TablesValid` | lib/frontends/cxp_frontend.c:128-168 | The 64-bit words of the tables for one, two and four ports decode to valid permutations with inverse halves, the identity among them, up to the invalid word at the end |
| `CxpFrontend.PowerValue` | lib/frontends/cxp_frontend.c:386-402 | The loop over the ports computes the power word |
| `CxpMeaning.PowerTells` | lib/frontends/cxp_frontend.c:371-411 | Two bits at the physical number: powered unless switched off, test mode only if asked for |
| `CxpMeaning.PowerFrame` | lib/frontends/cxp_frontend.c:371-411 | Switching the power of a port sets the power of that port, and changes no other and no setting of a camera |
| `CxpFrontend.ResetValue` | lib/frontends/cxp_frontend.c:451-490 | The loop over physical ports puts host bits at the logical and transceiver bits at the physical number |
| `CxpMeaning.ResetTells` | lib/frontends/cxp_frontend.c:456-491 | For every valid map and physical port: the three host resets of its state stand at its logical number, the two transceiver resets at its physical number |
| `CxpMeaning.ResetClear` | lib/frontends/cxp_frontend.c:456-491 | All bits beyond the ports are clear |
| `CxpMeaning.PathTouches` | lib/frontends/cxp_frontend.c:428-491 | A change of one data path touches at most the five bits of that port |
| `CxpMeaning.SwappedExample` | lib/frontends/cxp_frontend.c:456-491 | Two swapped ports, the first active, the second in full reset, give 0x307 |
| `CxpMeaning.HostResets` | lib/frontends/cxp_frontend.c:456-491 | Which of the three host resets are set in which state of the data path |
| `CxpMeaning.TransceiverResets` | lib/frontends/cxp_frontend.c:456-491 | Which of the two transceiver resets are |
| `CxpFrontend.StandardValue` | lib/frontends/cxp_frontend.c:512-528 | The loop computes the uplink and standard word |
| `CxpMeaning.StandardTells` | lib/frontends/cxp_frontend.c:498-534 | Three bits at the logical number: fast uplink, and the number of the standard version |
| `CxpFrontend.AcquisitionValue` | lib/frontends/cxp_frontend.c:786-797 | The loop computes the acquisition word |
| `CxpMeaning.AcquisitionTells` | lib/frontends/cxp_frontend.c:764-808 | One bit at the logical number: set if and only if acquisition was started |
| `CxpFrontend.DownscaleValue` | lib/frontends/cxp_frontend.c:862-867 | The 8-bit loop computes the downscaling word for up to five ports, whatever the shift by a negative count yields that the fifth port needs |
| `CxpFrontend.DownscaleTells` | lib/frontends/cxp_frontend.c:862-869 | The word tells the numbers of links of the first four logical ports, and nothing about a fifth |
| `CxpMeaning.BitrateTells` | lib/frontends/cxp_frontend.c:587-651 | The seven speeds are numbered in the order of their bit rates, and the uplink is fast from 10 Gbit on |
| `CxpMeaning.BitrateReads` | lib/frontends/cxp_frontend.c:587-651 | The speed register holds that number |
| `CxpMeaning.SetAnswers` | lib/frontends/cxp_frontend.c:371-875 | What every setter answers: unknown port, bad parameter, a wait in vain, or success; a refused call changes nothing |
| `CxpFrontend.Frontend.SetPortPower` | lib/frontends/cxp_frontend.c:371-411 | Status, caches and registers, every branch |
| `CxpFrontend.Frontend.SetPortPath` | lib/frontends/cxp_frontend.c:428-500 | Status, both caches and register |
| `CxpFrontend.Frontend.SetPortSpeed` | lib/frontends/cxp_frontend.c:587-651 | Status, caches and registers for every outcome of the two waits |
| `CxpFrontend.Frontend.SetPortStandard` | lib/frontends/cxp_frontend.c:666-695 | Status, cache and register |
| `CxpFrontend.Frontend.SetPortAcquisition` | lib/frontends/cxp_frontend.c:764-808 | Status, cache and register |
| `CxpFrontend.Frontend.SetPortLinks` | lib/frontends/cxp_frontend.c:822-875 | Status, cache and register, single-port boards included |
| `CxpFrontend.Frontend.SaveAll` | lib/frontends/cxp_frontend.c:981-994 | The two saving loops file every setting under its physical port |
| `CxpFrontend.Frontend.ChangeMap` | lib/frontends/cxp_frontend.c:951-1024 | The whole port map change refines its specification |
| `CxpFrontend.Frontend.ResetAll` | lib/frontends/cxp_frontend.c:1029-1068 | So does the reset |
| `CxpCoherence.SetCoherent` | lib/frontends/cxp_frontend.c:371-875 | Every setter, successful or not, keeps the written registers equal to the words recomputed from scratch, although cached writes are skipped |
| `CxpCoherence.SetKeepsPaths` | lib/frontends/cxp_frontend.c:428-500 | The two copies of the data path state agree through the map after every setter |
| `CxpRuns.SetCamera` | lib/frontends/cxp_frontend.c:371-875 | A setter changes its setting of the camera it names and nothing else of any camera |
| `CxpRuns.MapAccepted` | lib/frontends/cxp_frontend.c:958-967 | Exactly the maps in the table and the current one are accepted, and a refused map changes nothing |
| `CxpMeaning.SwitchWritten` | lib/frontends/cxp_frontend.c:951-1024 | An accepted change selects the map, and writes its number in the table to the multiplexer; the first map is selected without touching a setting |
| `CxpRemap.NothingToWrite` | lib/frontends/cxp_frontend.c:1003-1018 | If the restoring loop wrote no reset word, both maps give the same word |
| `CxpRemap.RestoreLoop` | lib/frontends/cxp_frontend.c:1003-1018 | After the restoring loop every moved camera has been carried and no other slot was disturbed |
| `CxpRuns.RemapCarries` | lib/frontends/cxp_frontend.c:951-1024 | A map change leaves data path state, downlink speed, standard version, acquisition state and downscaling of every physical port as they were, now stored under the new logical number |
| `CxpRuns.RemapCoherent` | lib/frontends/cxp_frontend.c:951-1024 | It leaves every written register as if computed from scratch |
| `CxpRuns.UplinkCarriedIff` | lib/frontends/cxp_frontend.c:587-651 | The uplink speed survives a map change if and only if the port kept its number, its speed change was acknowledged, or its new slot held the right speed already |
| `CxpTables.SwapLosesUplink` | lib/frontends/cxp_frontend.c:951-1024 | A run in which it does not: after a reset and a speed change, a swap of two ports that do not answer in time reports success and leaves both at the other one's uplink speed |
| `CxpRuns.ResetSets` | lib/frontends/cxp_frontend.c:1029-1048 | After resetting the ports every camera has the default settings |
| `CxpMeaning.ResetMap` | lib/frontends/cxp_frontend.c:1053-1068 | A reset selects the identity map, whatever map was selected before |
| `CxpMeaning.DefaultsAre` | lib/frontends/cxp_frontend.c:1029-1048 | The defaults are: data path inactive, 3.125 Gbit down and the slow uplink if acknowledged in time, standard 1.1, not acquiring, one link |
| `CxpRuns.AlwaysExact` | lib/frontends/cxp_frontend.c:1053-1068 | After the first reset and any sequence of setters, map changes and resets, the reset, standard and acquisition registers have been written and hold the recomputed words; power and downscaling do if written |
| `CxpRuns.RegistersExact` | lib/frontends/cxp_frontend.c:371-875 | That holds in every state with coherent and known caches; power and downscaling are unwritten only while no power state was set and every port has one link |
| `CxpRuns.RunKeepsUplinks` | lib/frontends/cxp_frontend.c:587-651 | Uplink and downlink speeds fit together in every run whose map changes are acknowledged in time |
| `JtagModel.DigitsLead` | lib/controllers/jtag_controller.c:132-225 | Whatever the shadow state, its TMS sequence leads every TAP state it allows to the target (section 6.1 of IEEE Std 1149.1-2013) |
| `JtagModel.DigitsPass` | lib/controllers/jtag_controller.c:132-225 | On its way from a known state it passes Test-Logic-Reset only if that is the target, shifts nothing, and passes the update state of the register it leaves exactly once and the other never |
| `JtagModel.FiveOnes` | lib/controllers/jtag_controller.c:135-139 | Five ones reset the TAP from all sixteen states |
| `JtagModel.MsbBit` | lib/controllers/jtag_controller.c:413-428 | Bit i of a frame that starts with the most significant bit is payload bit left - 1 - i, for every frame length |
| `JtagModel.LsbInOrderIff` | lib/controllers/jtag_controller.c:429-435 | A transfer that starts with the least significant bit sends its bits in order, none left out, if and only if it has at most 16 bits or a multiple of 8 |
| `JtagModel.LsbBit` | lib/controllers/jtag_controller.c:429-435 | Which payload bit each position of such a frame sends |
| `JtagModel.RawAlignedIff` | lib/controllers/jtag_controller.c:455-470 | In raw mode, most significant bit first, TMS bits go out with their data bits if and only if the frame is made of whole bytes |
| `JtagTransfer.TransferSends` | lib/controllers/jtag_controller.c:404-498 | A transfer of any length clocks the chain once per bit, always in the requested state, with the payload in order and TMS high only for the last bit outside IDLE |
| `JtagTransfer.RawTransferSends` | lib/controllers/jtag_controller.c:404-498 | Raw data goes out in the same order |
| `JtagTransfer.RawFrameTms` | lib/controllers/jtag_controller.c:450-474 | Which TMS bit goes out with each raw data bit |
| `JtagTransfer.AlwaysAgrees` | lib/controllers/jtag_controller.c:120-530 | After any sequence of successful state changes, transfers and raw writes the shadow state allows the state the TAP is in |
| `JtagTransfer.PartialTap` | lib/controllers/jtag_controller.c:404-498 | A transfer that stops early leaves the TAP in its shift state, one that has clocked its last frame has left it |
| `JtagTransfer.LostAnswer` | lib/controllers/jtag_controller.c:230-248 | A state change whose answer was lost leaves an agreeing shadow if and only if the frame never reached the chain or the old state was unknown |
| `JtagTransfer.LostFrame` | lib/controllers/jtag_controller.c:474-481 | A transfer that loses an answer leaves an agreeing shadow if and only if it is in IDLE, the frame never reached the chain, or it was not the last one |
| `JtagController.Controller.SetState` | lib/controllers/jtag_controller.c:120-250 | Result, shadow state and clocks sent |
| `JtagController.Controller.SendFrames` | lib/controllers/jtag_controller.c:396-498 | The frame loop with its byte pointer refines the transfer up to the frame whose answer is lost, and succeeds exactly if there is none |
| `JtagController.Controller.SendRawFrames` | lib/controllers/jtag_controller.c:396-498 | So does the raw loop |
| `JtagController.WriteAgrees` | lib/controllers/jtag_controller.c:252-530 | When shadow and TAP agreed before a write outside raw mode, it sends its data from the requested state if all answers come, and they agree afterwards if and only if all came or the lost one has misled nobody |
| `JtagController.CheckMeans` | lib/controllers/jtag_controller.c:252-300 | Exactly which parameters are accepted: data, one unit, a state if and only if not raw, not both fillings, a length that is positive and not too long; missing data and bad lengths have errors of their own |
| `JtagController.RefusalMeans` | lib/controllers/jtag_controller.c:252-400 | Of the writes with good parameters exactly those are refused that ask for a state that cannot shift, or for stored TMS data of another length |
| `JtagController.CountsMean` | lib/controllers/jtag_controller.c:252-330 | Numbers of bits and bytes: whole bytes for a length in bytes, the bytes that hold the bits for one in bits |
| `JtagController.RawInputs` | lib/controllers/jtag_controller.c:330-400 | Which bits a raw write shifts as data and as TMS, for every combination of flags |
| `JtagController.Controller.Write` | lib/controllers/jtag_controller.c:252-530 | Which writes are refused and why, and that these change nothing; any other succeeds exactly if all its answers come; exact shadow state and chain after success and failure, also when they did not agree before; what is sent, which TMS data is stored, and what a raw write that loses an answer leaves |
| `MessagingRing.CopiedMeans` | lib/dma/messaging_dma_controller.c:55-76 | Payload word i arrives at (offset + i) mod capacity, from ring word (start + 1 + i) mod total, and every other position keeps its content |
| `MessagingRing.MessagingDma.CopyWords` | lib/dma/messaging_dma_controller.c:55-76 | The chunk loop, with page ends and wrap-around of both rings, copies exactly that |
| `MessagingRing.MessagingDma.CopyNext` | lib/dma/messaging_dma_controller.c:37-94 | Result, destination and read offset, the overflow path and a zero length word included |
| `MessagingRing.SkipStarts` | lib/dma/messaging_dma_controller.c:84-91 | After a copy of any length word the read offset is in the ring and not on the last word of a page |
| `MessagingRing.SkipMeans` | lib/dma/messaging_dma_controller.c:80-94 | Without overflow the next place is behind the transmission, or one word further where none may start |
| `MessagingRing.FollowStarts` | lib/dma/messaging_dma_controller.c:138-152 | So it is after fetching a transmission |
| `MessagingRing.SameAdvance` | lib/dma/messaging_dma_controller.c:84-152 | Without 32-bit overflow both readers move on to the same place |
| `MessagingRing.MessagingDma.GetNext` | lib/dma/messaging_dma_controller.c:96-155 | Result and read offset for every error branch and on success |
| `MessagingRing.AcceptedIff` | lib/dma/messaging_dma_controller.c:110-127 | A running engine accepts a transmission if and only if it lies in one page or its length word overflows the 32-bit sum |
| `MessagingRing.RefusedBecause` | lib/dma/messaging_dma_controller.c:96-155 | Which error each refused transmission gives |
| `MessagingRing.ReadersAgree` | lib/dma/messaging_dma_controller.c:37-155 | For transmissions within a page both readers see the same words and continue at the same place |
| `UiqDemux.AnyBatching` | linux/menable6.c:720-825 | Processing a word stream in any split into interrupts has the effect of one big batch |
| `UiqDemux.PacketArrives` | linux/menable6.c:720-825 | One packet on the wire has the effect of its delivery to the queue its header names, or of none |
| `UiqDemux.FindFirst` | linux/menable6.c:749-754 | The search finds the first queue with the number, and fails if and only if there is none |
| `UiqDemux.OddHeaders` | linux/menable6.c:735-765 | A word of all zeros or all ones between packets is skipped; a header that announces no word makes the next 65535 words a payload |
| `UiqDemux.StreamDelivers` | linux/menable6.c:720-825 | A stream of packets cut into interrupts anywhere delivers packet by packet |
| `UiqDemux.QueueReceives` | linux/menable6.c:793-800 | The first read queue with a number receives exactly the payloads of the packets with that number, in order and complete; a second one receives nothing |
| `UiqDemux.QueueDrains` | linux/menable6.c:775-791 | The first write queue with a number is pushed once per non-empty packet with that number while it has words left, its FIFO depth each time and the rest at last; the first packet that finds it empty stops it; nothing else changes |
| `UiqDemux.Receiver.ProcessData` | linux/menable6.c:720-825 | The nested loops refine the word-by-word machine and fetch exactly the announced number of words |
| `Burst.CoveredAllIff` | lib/controllers/controller_base.c:137-149 | The shots of a burst cover it exactly from the last one of ceil(size / max) on |
| `Burst.ShotsMean` | lib/controllers/controller_base.c:118-180 | All shots but the last are full, the last has the rest; exactly the first carries the first flag, exactly the last the last flag |
| `Burst.DrainsMean` | lib/controllers/controller_base.c:80-105 | The number of drains empties a queue of the given depth, with none to spare |
| `Burst.NextRead` | lib/controllers/controller_base.c:157-160 | The size the read loop works out is always that of the oldest outstanding request, and its last-shot flag marks exactly the end of the burst |
| `Burst.LastRequestFlagged` | lib/controllers/controller_base.c:143-145 | The last request carries the last-shot flag if and only if the burst fits the request queue |
| `Burst.Controller.Prefetch` | lib/controllers/controller_base.c:137-151 | Requests until the queue is full or everything is requested, or up to the first failure |
| `Burst.Controller.ReadLoop` | lib/controllers/controller_base.c:153-180 | Reads all bytes in order, shot i with the size of request i, or up to the first failure; never reads without a matching request or requests beyond the depth |
| `Burst.Controller.ReadBurst` | lib/controllers/controller_base.c:118-190 | Succeeds exactly if the device does one operation at the start and two per shot; bytes, shots, requests, flags and operations used, in the good case and up to any failure, for every size, shot width and depth |
| `Burst.Controller.WriteBurst` | lib/controllers/controller_base.c:59-116 | Succeeds exactly if the device does one operation at the start, one per shot and one per drain; all bytes in order, drained after at most write_queue_size shots and at the end; what was written up to any failure |
| `Burst.Controller.Cleanup` | lib/controllers/controller_base.c:52-57 | Flags cleared and abort handler called once |

## Left out

- PCI probing, sysfs, ioctl marshalling, user copies, page pinning, DMA mapping and kernel allocation: foreign calls, present only as parameters.
- Kernel linked lists: modelled as sequences of buffer indices, so node pointers and aliasing are not captured; that a buffer is in one list at most is the invariant proved.
- Counters of the channel are unbounded integers; that the modelled ones never go below zero follows from the invariant, wrap-around above is not modelled.
- imgcnt, time stamps, transfer lengths and tags of frames, cache synchronisation, thread groups, the timer itself: they do not influence which buffer goes where.
- Two channels on one head, and the busy answer of men_start_dma that leads to a clean-up outside STOPPING.
- A head without an associated channel: unregistering, queueing and unlocking then touch no list.
- The wake-up protocol and the channel model are two models: the protocol keeps only phase, goodcnt and transfer_todo of the channel.
- me6_create_dummybuf, create_for_dummy_buffer and destruction of the library list: they add nothing to the chain.
- The 10-bit size field of the host-to-device layout: only its bit positions are modelled.
- fg_start_transfer: a missing head or channel, and a timeout that stops the channel while the caller waits for the stop work.
- SglEntry.EncodeV2 and SglEntry.EncodeDev2Pc: encode a copy of a block's data and put it back; the source writes the block itself.
- SglMerge.CreateSglV2: takes blocks and addresses that suffice as a precondition; the code does not check num_sgl_blocks either.
- SglFill.FillBlocks: takes blocks that suffice as a precondition, and bus addresses from a page table.
- CoaXPress LEDs, image stream ids and applet reload.
- The 120-entry table of five-port boards, and the status polling behind the two waits of a speed change.
- JTAG read-back: where the controller puts returned bits is not documented. Prescaler, frequency and burst flags of the JTAG controller.
- Event queues: the ring buffer behind a queue is a log; interrupt counts, completions, time stamps and concurrent user reads and writes are not modelled, nor is the packet format of CoaXPress write queues.
- Messaging DMA: buffer declaration, start, stop and abort; the ring does not change while it is read.
- Burst engine: begin and end of transactions, state changes, command bursts; handlers of concrete controllers appear as device operations that succeed or fail.
- I2C, BPI and SPI controllers, MCAP, dma_controller_base, board tables, version checks, linked_list.c, image_buffer_deque.c and crc32.c: register polling, finite data or standard containers.
