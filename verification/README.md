# Verified models of the guest runtime and its transports

This project models the parts of the repository where state is hardest to keep
right, and proves what they promise. Each model is written in the form of its
source: classes with fields where the source updates objects in place, loops
where it loops, functions where it computes values. Every method is proved
against a specification on plain values, and the laws are proved about those.

`dafny verify dfyconfig.toml` checks everything.

## What is modelled

**Sparse software memory** (`Sparse*.dfy`, `PageTable.dfy`). A sorted, coalesced
region table, an open-addressed page table with tombstones, a fixed backing arena
with a free stack, and write generations for exclusives. Over every interleaving
of calls by any number of threads it behaves as a plain map from address to
protection, maximum protection and byte, and a store-exclusive succeeds exactly
while its load-exclusive is watched. `gsv_copy` and `gsv_fill` are built on it.

**TCP in user space** (`SequenceNumbers.dfy`, `Tunnel*.dfy`). One segment in
flight, retransmission, zero-window probes, all closing states (sections 3.4,
3.6, 3.8.1, 3.8.6.1 and 3.10.7 of RFC 9293, section 3.2 of RFC 5961). Ghost
stream positions say what each sequence number stands for, and whole runs of a
connection deliver a prefix of the peer's stream.

**VM reservation budget** (`VMBudget*.dfy`). Interval bookkeeping over a kernel
that may refuse or choose any address.

**Debugger arena session** (`Arena*.dfy`, `DebugReplies.dfy`, `DebugWire.dfy`).
The batched request and reply protocol as a class over its full history of
commands and answers, the packet codec below it, and both together on raw bytes.

**Interpreter with decode cache** (`Guest*.dfy`). Guest memory as a sorted page
array, the instruction decoder, and the run loop with its cache, against a
machine that fetches and decodes at every step.

**RemoteXPC codec** (`XPC*.dfy`) and **initialization order**
(`InitializationOrder.dfy`).

## How to read the models

- A lock held for a whole call makes a call one atomic step. Threads of the sparse
  memory are interleaved calls, each thread with its own monitor.
- Counters that the source keeps in 64 bits and only ever increments (write and
  mapping generations, code generation, retired instructions) are unbounded.
- What the operating system or the allocator decides is a parameter: kernel
  answers of the VM budget, and how many pages can still be given storage in each
  step of guest memory.
- Where the source throws, the model returns a value that says so.
- The memory state of the arena's target is a function from address to byte; an
  honest server answers each read with the bytes at that time.

## Where the code differs from its documentation or from what one expects

- `runtime/GuestVMBudget.h:27` says of a region that was not downsized that
  end == limit == span. The code trims a tail and keeps the old span
  (`runtime/GuestVMBudget.c:100-102`). `VMBudget.FullStaysFull` gives the exact
  condition, `VMBudget.TrimmedRegionMisses` an instance.
- `runtime/GuestVMBudget.h:60` says that a hole unmapped inside a region splits it.
  With the region table full it stays counted instead
  (`runtime/GuestVMBudget.c:103-107`), and so does the granted part of a downsized
  region that is unmapped from its middle to its end, because the guard is a piece
  of its own. `VMBudget.ProgressMeans` with `VMBudgetRegions.CutOwns` says exactly
  which addresses, `VMBudget.FullTableHolds` gives an instance.
- A zero-window probe sent before any written byte was acknowledged carries a
  zero at the SYN's number (`authorization/Transport/TunnelTCP.swift:265-268`).
  `TunnelTCP.Connection.ProbeGenuine` gives the exact condition,
  `TunnelTCP.EarlyProbe` an instance.
- In `DebugArenaSession.receive`, a byte after the final OK in the same call turns
  the success into a protocol failure (lines 65-66 and 102).
  `ArenaSession.Session.Consume` says exactly when a call completes the session.

The budget itself may be exceeded: the header promises the floor first
(`runtime/GuestVMBudget.h:34`), and guard pages are counted too.
`VMBudget.Budget.Reserve` and `VMBudget.Budget.Wanted` say exactly when,
`VMBudget.FloorExceeds` gives an instance.

## Model

| member | source | states |
|---|---|---|
| SparseRegions.CanonicalUnique | runtime/GuestSparseMemory.c:72-83 | a sorted, disjoint, coalesced table is determined by the address function it denotes, so full coalescing leaves one representation per mapping |
| SparseRegions.AppendCanonical | runtime/GuestSparseMemory.c:72-83 | appending a region that begins at or after the last one keeps the table sorted, bounded and coalesced |
| SparseRegions.AppendAt | runtime/GuestSparseMemory.c:72-83 | appending, with or without merging, adds exactly the new region's addresses |
| SparseRegions.RewriteMeans | runtime/GuestSparseMemory.c:184-207 | from any point of the rebuild loop on, the finished table is canonical and denotes the old function with the interval overridden, removed or re-protected |
| SparseRegions.ChangedMeans | runtime/GuestSparseMemory.c:161-218 | a mapping change is exactly interval override, interval removal or interval re-protection, and the result is again canonical |
| SparseScan.CheckChange | runtime/GuestSparseMemory.c:161-183 | the refusal of a mapping call (overlap, hole under protect, protection beyond the maximum) is the one the region function calls for |
| SparseScan.CheckCaps | runtime/GuestSparseMemory.c:176-183 | protection is refused exactly when some region in the range caps it |
| SparseScan.Add | runtime/GuestSparseMemory.c:72-83 | the append reports failure exactly when the merged table would pass its fixed size |
| SparseScan.RebuildOne | runtime/GuestSparseMemory.c:184-207 | one region's turn of the rebuild gives up exactly when the table is full |
| SparseScan.Rebuild | runtime/GuestSparseMemory.c:184-207 | the loop over regions computes the changed table, or gives up exactly when it does not fit |
| SparseScan.CheckAccess | runtime/GuestSparseMemory.c:229-241 | the walk over regions reports the verdict of the first address that is unmapped or not permitted |
| SparseScan.AccessOk | runtime/GuestSparseMemory.c:229-241 | access is granted if and only if every address is mapped with the permission |
| SparseScan.FindFree | runtime/GuestSparseMemory.c:145-160 | the lowest free address, or GM_NOMEM if and only if there is none |
| PageTable.PageSlot | runtime/GuestSparseMemory.c:47-61 | probing finds a page if and only if it is live; an insertion ends at the first reusable slot, which exists while the table is not full |
| PageTable.BackingPartition | runtime/GuestSparseMemory.c:62-71 | every backing index handed out is held by exactly one live page or lies on the free stack, never both, and at most capacity are handed out |
| PageTable.Pages.Insert | runtime/GuestSparseMemory.c:247-276 | an absent page gets a zeroed block; the probe, index and backing invariants survive, with recycled or fresh backing and with a tombstone or an empty slot |
| PageTable.Pages.Update | runtime/GuestSparseMemory.c:256-276 | copying into a resident page changes that page's bytes and generation and no other page |
| PageTable.Pages.Remove | runtime/GuestSparseMemory.c:62-71 | a tombstone removes one page, keeps every other page findable and recycles its backing |
| PageTable.Pages.Discard | runtime/GuestSparseMemory.c:62-71 | discarding a range removes exactly the resident pages in it |
| PageTable.Pages.Contains | runtime/GuestSparseMemory.c:47-61 | a page is found if and only if it is resident |
| PageTable.Pages.Generation | runtime/GuestSparseMemory.c:321-324 | the generation of a resident page, 0 for any other |
| PageTable.Pages.Room | runtime/GuestSparseMemory.c:247-253 | the count of missing pages decides exactly whether a write can be given backing |
| PageTable.Pages.WriteBytes | runtime/GuestSparseMemory.c:254-279 | the chunk loop with allocation on the way writes exactly the bytes and stamps exactly the touched pages |
| PageTable.Pages.ReadBytes | runtime/GuestSparseMemory.c:254-279 | the chunk loop reads resident bytes and zeros elsewhere |
| PageTable.Pages.PrepareBytes | runtime/GuestSparseMemory.c:280-303 | preparing backs exactly the missing pages of the range, with zeros and generation 0 |
| SparseFrames.ChunkStep | runtime/GuestSparseMemory.c:256-276 | one turn of the copy loop extends the written prefix by its chunk, across page borders |
| SparseFrames.WrittenByte | runtime/GuestSparseMemory.c:242-279 | after a write each address holds the written byte or what it held before |
| SparseFrames.PreparedSame | runtime/GuestSparseMemory.c:280-303 | preparing changes no byte and no generation |
| SparseFrames.DiscardedByte | runtime/GuestSparseMemory.c:62-71 | bytes outside a discarded range are untouched, inside they read zero |
| SparseSpec.BothPermissions | runtime/GuestSparseMemory.c:351-364 | what may be read and written together may be read and may be written, so a compare-exchange may write |
| SparseSpec.AtomicInPage | runtime/GuestSparseMemory.c:318-320 | an aligned atomic access stays inside one page |
| SparseMemory.SlotCount | runtime/GuestSparseMemory.c:93-104 | doubling ends with a power of two of at least 16 slots and at least twice the capacity, and less than four times it beyond 16 |
| SparseMemory.TablesFit | runtime/GuestSparseMemory.c:97-104 | the overflow checks of initialization never fire for a byte count of 64 bits |
| SparseMemory.Initialize | runtime/GuestSparseMemory.c:93-137 | initialization refuses exactly the invalid spaces, reports GM_NOMEM exactly when the host cannot allocate, and otherwise yields an empty memory whose invariants hold |
| SparseMemory.HomeSlots | runtime/GuestSparseMemory.c:47-61 | the page hash gives a slot of the table for every page |
| SparseMemory.Memory.Change | runtime/GuestSparseMemory.c:161-228 | map, unmap and protect on the arrays are the change on values, with every refusal; each resident page stays inside a mapping |
| SparseMemory.Memory.Check | runtime/GuestSparseMemory.c:229-241 | the access verdict of the regions, with GM_INVALID outside the space |
| SparseMemory.Memory.Read | runtime/GuestSparseMemory.c:304-314 | reading is all or nothing and returns the bytes of the state |
| SparseMemory.Memory.Write | runtime/GuestSparseMemory.c:304-317 | writing is all or nothing: result and new state are those of the state model, GM_NOMEM without a change |
| SparseMemory.Memory.Prepare | runtime/GuestSparseMemory.c:280-303 | preparing reports and leaves what the state model says |
| SparseMemory.Memory.FindFree | runtime/GuestSparseMemory.c:145-160 | the lowest free address of the space, or GM_NOMEM if and only if there is none |
| SparseMemory.Memory.LoadExclusive | runtime/GuestSparseMemory.c:325-335 | the load returns the bytes and arms the monitor with address, size and both counters |
| SparseMemory.Memory.StoreExclusive | runtime/GuestSparseMemory.c:336-350 | the store happens exactly when the monitor still holds and the write is granted; the monitor is spent |
| SparseMemory.Memory.CompareExchange | runtime/GuestSparseMemory.c:351-364 | the old bytes are returned and replaced exactly when they are the expected ones |
| SparseMemory.Memory.AtomicUpdate | runtime/GuestSparseMemory.c:365-394 | one read-modify-write of the operation on the bytes found |
| SparsePlain.ViewChange | runtime/GuestSparseMemory.c:161-218 | seen as a plain map from address to protection, maximum and byte, a change is override with zeros, removal, or re-protection |
| SparsePlain.ViewWrite | runtime/GuestSparseMemory.c:242-279 | seen as a plain map, a write replaces exactly the written bytes |
| SparsePlain.ViewPrepare | runtime/GuestSparseMemory.c:280-303 | seen as a plain map, preparing changes nothing |
| SparsePlain.ViewRefusal | runtime/GuestSparseMemory.c:161-183 | the refusal of a mapping call can be read off the plain map |
| SparsePlain.ViewAccess | runtime/GuestSparseMemory.c:229-241 | the access verdict can be read off the plain map |
| SparsePlain.ViewRead | runtime/GuestSparseMemory.c:254-279 | the bytes read are those of the plain map |
| SparsePlain.ChangeKeepsLegal | runtime/GuestSparseMemory.c:161-218 | after any change every resident page lies inside a mapping and all counts fit |
| SparsePlain.WriteKeepsLegal | runtime/GuestSparseMemory.c:242-279 | a granted write keeps the state legal |
| SparsePlain.PrepareKeepsLegal | runtime/GuestSparseMemory.c:280-303 | preparing keeps the state legal |
| SparseRuns.StepKeepsLegal | runtime/GuestSparseMemory.c:219-394 | every public call keeps the state legal, whatever its arguments |
| SparseRuns.StepPlain | runtime/GuestSparseMemory.c:219-394 | every call of any thread answers as the plain map does and leaves the plain map's next state; only resource refusals come on top |
| SparseRuns.RunPlain | runtime/GuestSparseMemory.c:219-394 | over every interleaved run, each answer and each state is that of the plain map |
| SparseRuns.ErrorsChangeNothing | runtime/GuestSparseMemory.c:219-394 | a call that does not answer GM_OK leaves the plain map as it was |
| SparseExclusive.GenerationGrows | runtime/GuestSparseMemory.c:242-279 | between mapping changes a page's generation never goes back, and stays the same only if nothing wrote the page |
| SparseExclusive.MonitorOrigin | runtime/GuestSparseMemory.c:325-350 | a valid monitor comes from the thread's last load-exclusive and nothing has re-armed it since |
| SparseExclusive.CalmBytes | runtime/GuestSparseMemory.c:325-350 | as long as neither the page is written nor the space remapped, its bytes stay |
| SparseExclusive.ExclusiveExact | runtime/GuestSparseMemory.c:325-350 | over every interleaving, a monitor holds if and only if its load-exclusive is still watched: no write to the page and no mapping change since, so neither recycling nor an equal value can fool it, and other pages and preparing never break it |
| SparseExclusive.StoredSawLoaded | runtime/GuestSparseMemory.c:336-350 | a store reported as stored found the very bytes its load-exclusive returned |
| SparseExclusive.WatchedStores | runtime/GuestSparseMemory.c:336-350 | a watched store-exclusive fails only for the write access itself, never for its monitor |
| SparseDriver.Perform | runtime/GuestSparseMemory.c:219-394 | one call on the object is one step of the run |
| SparseDriver.Run | runtime/GuestSparseMemory.c:219-394 | the object answers every sequence of calls as the run does |
| SparseDriver.CopyChunk | runtime/GuestSoftwareVM.c:425-446 | a prepared chunk moves through the bounce buffer without failing and leaves the rest prepared |
| SparseDriver.ForwardStep | runtime/GuestSoftwareVM.c:425-446 | copying upward in chunks extends a memmove, also when source and destination overlap |
| SparseDriver.BackStep | runtime/GuestSoftwareVM.c:425-446 | copying downward in chunks extends a memmove, also when source and destination overlap |
| SparseDriver.Copy | runtime/GuestSoftwareVM.c:425-446 | gsv_copy between software addresses is memmove for every overlap and length, or reports an error and changes no byte |
| SparseDriver.Fill | runtime/GuestSoftwareVM.c:447-458 | gsv_fill sets every byte of the range, or reports an error and changes no byte |
| SequenceNumbers.Apart | authorization/Transport/TunnelTCP.swift:114-115 | within half the number space, wrapping comparison orders stream positions |
| SequenceNumbers.Acknowledged | authorization/Transport/TunnelTCP.swift:205-213 | an acknowledgement between una and next names exactly the number of bytes it confirms, through 32-bit wrap |
| TunnelTCP.Connection.constructor | authorization/Transport/TunnelTCP.swift:109-113 | an idle connection with nothing written, taken or in flight, at the given sequence number |
| TunnelTCP.Begin | authorization/Transport/TunnelTCP.swift:109-113 | a connection is made if and only if the link's packet size and the endpoints are acceptable, and then it is idle |
| TunnelTCP.Connection.Connect | authorization/Transport/TunnelTCP.swift:124-130 | only an idle connection sends its SYN, at the initial sequence number, with the largest segment size of the link |
| TunnelTCP.Connection.Write | authorization/Transport/TunnelTCP.swift:131-136 | refusals are exact; an accepted write appends to what was written, and acknowledged bytes, pending payload and send buffer together stay exactly that |
| TunnelTCP.Connection.Read | authorization/Transport/TunnelTCP.swift:137-143 | reading takes a prefix of the receive buffer and extends what was delivered by exactly it |
| TunnelTCP.Connection.ShutdownWrite | authorization/Transport/TunnelTCP.swift:144-147 | the close request is remembered once; the FIN is sequenced after every written byte |
| TunnelTCP.Connection.SendData | authorization/Transport/TunnelTCP.swift:148-158 | a new segment carries the next written bytes, as many as the buffer, the segment size and the peer's window allow; with a closed window nothing is sent and waiting begins once |
| TunnelTCP.Connection.SendFin | authorization/Transport/TunnelTCP.swift:159-167 | the FIN goes out only after all data, into FIN-WAIT-1 or LAST-ACK |
| TunnelTCP.Connection.Flush | authorization/Transport/TunnelTCP.swift:148-167 | one segment in flight at most; what is emitted carries the written bytes of its sequence numbers |
| TunnelTCP.Connection.Tick | authorization/Transport/TunnelTCP.swift:252-271 | deadlines, retransmissions and probes, case by case; with nothing due there is no event and no change; every retransmission carries the written bytes of its numbers; the peer's FIN is never reported |
| TunnelTCP.Connection.Retry | authorization/Transport/TunnelTCP.swift:258-262 | a retransmission repeats the pending segment, counts one more try and doubles the timeout up to 8 seconds |
| TunnelTCP.Connection.ProbeCarries | authorization/Transport/TunnelTCP.swift:263-269 | once a written byte is acknowledged, a zero-window probe repeats the last acknowledged byte at its own number |
| TunnelTCP.Connection.ProbeGenuine | authorization/Transport/TunnelTCP.swift:263-269 | with nothing in flight the probe carries what was written at its number if and only if a written byte has been acknowledged |
| TunnelTCP.EarlyProbe | authorization/Transport/TunnelTCP.swift:168-269 | connecting to a peer with a closed window, writing one byte and waiting a second sends a probe that carries a byte nobody wrote |
| TunnelTCP.Connection.FlightCovers | authorization/Transport/TunnelTCP.swift:92-104 | the pending segment is absent exactly when una == next, and otherwise covers exactly the numbers from una to next |
| TunnelTCP.Connection.SentAtMostSix | authorization/Transport/TunnelTCP.swift:252-262 | in every reachable state the segment in flight was sent at most six times |
| TunnelTCP.Connection.RetransmissionGenuine | authorization/Transport/TunnelTCP.swift:258-262 | the pending segment always carries the written bytes of its numbers, also after partial acknowledgements |
| TunnelTCP.Connection.Abort | authorization/Transport/TunnelTCP.swift:272-277 | an abort resets the peer once and ends the connection |
| TunnelTCP.Connection.ReceiveSynAck | authorization/Transport/TunnelTCP.swift:168-181 | a SYN with an exact acknowledgement opens, with the smaller segment size, the peer's window and its numbers; only an exact reset fails |
| TunnelTCP.Connection.UpdateWindow | authorization/Transport/TunnelTCP.swift:205-210 | the peer's window is taken only from a segment that is not older than the last that set it |
| TunnelTCP.Connection.Acknowledge | authorization/Transport/TunnelTCP.swift:211-227 | an acknowledgement removes exactly its bytes from flight, keeps the pending segment covering una to next, and moves the closing states on, with their deadlines of 30 and 120 seconds |
| TunnelTCP.Connection.TakeAck | authorization/Transport/TunnelTCP.swift:203-228 | exactly what an acknowledgement changes: una, the acknowledged count, the pending segment and the peer's window |
| TunnelTCP.Connection.Take | authorization/Transport/TunnelTCP.swift:234-246 | exactly the new in-order bytes that fit the window are taken, and the FIN when it follows them |
| TunnelTCP.Connection.Answer | authorization/Transport/TunnelTCP.swift:229-233 | the answer begins with the acknowledgement where one is due, and everything sent with it is genuine |
| TunnelTCP.Connection.TakeAndAnswer | authorization/Transport/TunnelTCP.swift:229-249 | the tail of receive: what is taken, acknowledged and sent on |
| TunnelTCP.Connection.ReceiveAcceptable | authorization/Transport/TunnelTCP.swift:203-249 | an acceptable segment is taken faithfully, its acknowledgement is taken in full, and everything emitted is genuine |
| TunnelTCP.Connection.Receive | authorization/Transport/TunnelTCP.swift:168-249 | every segment, wanted or not: what is taken is contiguous and faithful to the segment, in-order data in the window is never dropped, an acceptable acknowledgement is taken in full and nothing else moves the sending side, and only an exact reset fails the connection |
| TunnelTCP.AckKeeps | authorization/Transport/TunnelTCP.swift:211-227 | after any partial or full acknowledgement the pending segment covers exactly una to next modulo 2^32 |
| TunnelTCP.TakeKeeps | authorization/Transport/TunnelTCP.swift:234-246 | the receive position stays the wrapped number of bytes taken, FIN included |
| TunnelTCP.TakeFaithful | authorization/Transport/TunnelTCP.swift:234-246 | what a segment adds stands in it at its own stream positions, through duplicates, overlaps and wrap |
| TunnelTCP.TakeFollows | authorization/Transport/TunnelTCP.swift:234-246 | with an honest peer what is taken stays a prefix of the peer's stream |
| TunnelTCP.GenuineLater | authorization/Transport/TunnelTCP.swift:131-167 | writing more never falsifies a data segment already sent |
| TunnelRuns.Perform | authorization/Transport/TunnelTCP.swift:124-277 | every call on a connection moves both histories as the run laws require; the peer's FIN is reported exactly when it is taken |
| TunnelRuns.RunDelivers | authorization/Transport/TunnelTCP.swift:168-249 | after any number of calls with an honest peer everything read is a prefix of the peer's stream, and the FIN was reported once if it was taken and never otherwise |
| TunnelRuns.FinIsLast | authorization/Transport/TunnelTCP.swift:234-246 | with any peer nothing is taken back, and nothing is taken after the FIN |
| TunnelRuns.Run | authorization/Transport/TunnelTCP.swift:124-277 | over every sequence of calls on a connection: the concatenated reads are a prefix of the peer's stream, the FIN is reported at most once and only when the whole stream was taken, and every data segment sent carries the written bytes of its numbers, unless it is a probe from before the first acknowledged byte |
| VMBudgetRegions.PartAt | runtime/GuestVMBudget.c:47-68 | the piece found at the cursor is of one class throughout and never empty, so the walk advances; inside the mapping the call began in it ends exactly where its class does |
| VMBudgetRegions.AnchorAt | runtime/GuestVMBudget.c:35-46 | the mapping a call begins in: a region's own mapping first, else a claim, else nothing |
| VMBudgetRegions.ForgetShaped | runtime/GuestVMBudget.c:96-110 | cutting a piece out keeps start <= end <= limit <= span and all spans disjoint, also when a region splits |
| VMBudgetRegions.ForgetTotal | runtime/GuestVMBudget.c:96-110 | the sum of limit - start drops by exactly the piece, except for a hole that a full table cannot record |
| VMBudgetRegions.ForgetOwn | runtime/GuestVMBudget.c:96-110 | a recorded release removes exactly its addresses from what the table maps |
| VMBudget.Budget.constructor | runtime/GuestVMBudget.c:9-16 | an empty table with nothing reserved; the threshold is at least a page, the floor is cut to whole pages and is at least one |
| VMBudget.Budget.ClaimMapping | runtime/GuestVMBudget.c:71-81 | a mapping inside a missing part is remembered, or, with a full claim table, missing parts end where it begins |
| VMBudget.Budget.Unclaim | runtime/GuestVMBudget.c:82-95 | exactly the addresses of the range leave the claims, except for a hole inside one claim |
| VMBudget.Budget.Forget | runtime/GuestVMBudget.c:96-110 | reserved stays the sum of limit - start through trims, splits and removals |
| VMBudget.Budget.Sweep | runtime/GuestVMBudget.c:111-119 | regions that map nothing are gone; the claims lose exactly the missing parts of these regions, except where one is a hole inside a claim; what is mapped is the same |
| VMBudget.Budget.Overlaps | runtime/GuestVMBudget.c:132-140 | a range is refused exactly when it meets a region's span or leaves the address space |
| VMBudget.Budget.FreeSpan | runtime/GuestVMBudget.c:141-162 | a hole found is page aligned, at or above the start, meets no region's span and no mapping of the kernel, and over one kernel layout it is the first such place |
| VMBudget.Budget.Wanted | runtime/GuestVMBudget.c:173-177 | the first request stays within the budget if and only if the smaller of request and floor does; counted with page rounding and guard, if and only if the whole request does |
| VMBudget.Budget.MapShrinking | runtime/GuestVMBudget.c:178-188 | halving the request ends, asks the kernel for whole pages and a guard, and keeps the first request while the kernel has memory |
| VMBudget.Budget.Reserve | runtime/GuestVMBudget.c:163-223 | never more than asked is granted, within the budget or at the floor; the new region is granted part, guard and missing part of what was asked, and what lies beyond the guard was found free; reserved grows by exactly the rounded grant and its guard, and stays within the budget if and only if the whole request fits, unless the kernel runs short; past 256 regions the mapping is made as asked and not counted |
| VMBudget.FloorExceeds | runtime/GuestVMBudget.c:173-220 | with a budget of one page and a floor of two, the first reservation is counted beyond the budget |
| VMBudget.Budget.Withheld | runtime/GuestVMBudget.c:229-234 | the scan finds a guard or missing address of the range exactly when there is one |
| VMBudget.Budget.Map | runtime/GuestVMBudget.c:224-245 | a fixed mapping that reaches a guard or a missing part is refused, a hint there is dropped, any other request goes to the kernel as it is; a mapping made is claimed exactly as claim() does |
| VMBudget.Budget.Release | runtime/GuestVMBudget.c:267-283 | an unmapped piece leaves its region or, outside all regions, exactly the claims, and the table stays sound |
| VMBudget.Budget.ApplyRange | runtime/GuestVMBudget.c:246-283 | the calls issued cover exactly the addresses the operation may touch, in ascending pieces: no missing byte outside the mapping the call began in, guards only by unmap, nothing at all for usable protection of withheld memory; a carried-out unmap removes exactly its range from the table but for what a full table cannot split; claims lose only carried-out pieces outside regions and missing parts |
| VMBudget.Budget.Apply | runtime/GuestVMBudget.c:246-292 | the same for every address and size: an empty range goes to the kernel once, a wrapping or unaligned one is refused, and reserved stays the sum of limit - start |
| VMBudget.FullStaysFull | runtime/GuestVMBudget.c:96-110 | a region without missing part keeps none if and only if it does not lose its tail while keeping its front |
| VMBudget.TrimmedRegionMisses | runtime/GuestVMBudget.h:26-28 | the header's end == limit == span for a region that was not downsized fails once the last of three pages is unmapped |
| VMBudgetRegions.CutOwns | runtime/GuestVMBudget.c:96-109 | what a full table still counts of a region after an unmap: nothing of the range unless it begins inside the region's own mapping; then all of it if it also ends inside, and the granted part up to the guard if it covers the rest of a downsized region |
| VMBudget.ProgressMeans | runtime/GuestVMBudget.c:246-282 | at the end of a carried-out unmap the table maps exactly what remains, for tables with room and for full ones |
| VMBudget.FullTableHolds | runtime/GuestVMBudget.c:96-109 | in a table of 256 downsized regions, unmapping one from its second page to its limit leaves that page counted |
| InitializationOrder.Initializer.Visit | runtime/GuestLink.c:314-324 | the recursion ends because seen grows; the library is seen, nothing is unplaced, and only libraries still being visited are seen but not placed |
| InitializationOrder.Initializer.Order | runtime/GuestLink.c:326-337 | the order is a permutation of all libraries, and a linked library comes first unless it leads back to its user |
| InitializationOrder.AcyclicTopological | runtime/GuestLink.c:326-337 | without cycles the order is topological |
| InitializationOrder.TopologicalAcyclic | runtime/GuestLink.c:326-337 | conversely, a topological order of all libraries leaves no cycle |
| InitializationOrder.Place | runtime/GuestLink.c:323-323 | placing a library last keeps the order right although a cycle was cut |
| DebugWire.Parser.Take | authorization/DebugWire.c:11-52 | one byte of input: state, event and payload, with escapes, run lengths, checksums and every failure; the payload fits its buffer |
| DebugWire.PacketSize | authorization/DebugWire.c:54-58 | the exact escaped size, or 0 if and only if it does not fit |
| DebugWire.Encode | authorization/DebugWire.c:54-66 | 0 if and only if the packet does not fit; otherwise the buffer holds the packet and nothing beyond it changed |
| DebugWire.PayloadFits | authorization/DebugWire.c:12-52 | for every byte stream the payload never outgrows its capacity |
| DebugWire.FeedBody | authorization/DebugWire.c:12-52 | after the escaped form of a payload the parser holds exactly the payload and the running checksum |
| DebugWire.RoundTrip | authorization/DebugWire.c:11-66 | an encoded packet fed byte by byte asks for more until its last byte and then is the packet |
| DebugWire.EncodedInjective | authorization/DebugWire.c:54-66 | different payloads never encode alike |
| DebugReplies.Unhex | authorization/Debugger/DebugProtocolWire.swift:37-49 | accepted if and only if there are exactly twice count digits, all hexadecimal and within the capacity; each byte is its two digits, high one first |
| DebugReplies.HexRoundTrip | authorization/Debugger/DebugProtocolWire.swift:50-54 | an address rendered in hexadecimal reads back as itself |
| ArenaSession.MakeRequest | authorization/Debugger/DebugArenaRequest.swift:12-29 | a request is built if and only if its regions are aligned, disjoint from each other and the challenge, and within the limits |
| ArenaHistory.RenderFits | authorization/Debugger/DebugArenaSession.swift:45-55 | no command outgrows the smallest packet size a server may announce |
| ArenaHistory.PlannedMeans | authorization/Debugger/DebugArenaSession.swift:195-204 | the preparation order holds each page of each region exactly once |
| ArenaHistory.PlannedPrefix | authorization/Debugger/DebugArenaSession.swift:195-204 | what is planned up to any cursor is the beginning of all pages |
| ArenaHistory.SendingWritesKeeps | authorization/Debugger/DebugArenaSession.swift:195-204 | sending writes after everything was cleared keeps the history sound |
| ArenaHistory.NoEarlyWrite | authorization/Debugger/DebugArenaSession.swift:104-204 | when a write was sent, process and challenge had been verified and every byte of every region had been read back as zero from mappings vouched for as unnamed and read-execute |
| ArenaHistory.SuccessMeans | authorization/Debugger/DebugArenaSession.swift:162-182 | success means each page was written exactly once, answered OK and read back as zero, and afterwards process and challenge were verified again and the detach answered OK |
| ArenaHistory.MemoryUnchanged | authorization/Debugger/DebugArenaSession.swift:104-204 | with an honest server and a stopped target, serving the session's commands changes no byte of memory |
| ArenaPhases.RegionAnswered | authorization/Debugger/DebugArenaSession.swift:145-153 | each accepted region answer vouches for the addresses up to the next question, which lies further on |
| ArenaPhases.PreflightMore | authorization/Debugger/DebugArenaSession.swift:184-193 | a preflight batch extends what is read by exactly its range |
| ArenaPhases.EnterPrepare | authorization/Debugger/DebugArenaSession.swift:166-173 | when the last region is read, everything a write needs is established |
| ArenaPhases.PrepareMore | authorization/Debugger/DebugArenaSession.swift:195-204 | a preparation batch sends the next pages of the plan, each with its read-back |
| ArenaPhases.BoundMeans | authorization/Debugger/DebugArenaSession.swift:145-204 | the bound on commands in numbers: the requested bytes, plus a 96th of them, plus one per 8 KiB, plus 13 |
| ArenaSession.Session.constructor | authorization/Debugger/DebugArenaSession.swift:22-31 | an idle session that has sent and returned nothing |
| ArenaSession.Session.SendBatch | authorization/Debugger/DebugArenaSession.swift:45-55 | commands go out exactly when none is outstanding, there is one at a time until acknowledgements are off, and all fit |
| ArenaSession.JudgeProcess | authorization/Debugger/DebugArenaSession.swift:132-138 | no objection if and only if every field of the process description matches the request |
| ArenaSession.JudgeRegion | authorization/Debugger/DebugArenaSession.swift:145-150 | no objection if and only if the reply vouches for the cursor address |
| ArenaSession.Negotiated | authorization/Debugger/DebugArenaSession.swift:108-117 | an accepted packet size lies between 256 and the capacity |
| ArenaSession.ReadBatch | authorization/Debugger/DebugArenaSession.swift:184-193 | the reads of a batch cover the bytes from the old offset to the new one, at most four of them, few enough for the bound on commands |
| ArenaSession.PageBatch | authorization/Debugger/DebugArenaSession.swift:195-204 | a batch is the next pages of the plan, at most 128, write and read-back in turn |
| ArenaSession.Session.PreflightBatch | authorization/Debugger/DebugArenaSession.swift:184-193 | the batch in flight matches the replies expected and the bound on commands is kept |
| ArenaSession.Session.PrepareBatch | authorization/Debugger/DebugArenaSession.swift:195-204 | the written pages are extended by exactly the batch, and the bound on commands is kept |
| ArenaSession.Session.Reply | authorization/Debugger/DebugArenaSession.swift:104-182 | each reply is judged by its phase: without objection the session moves on, keeping all it knows; an objection is thrown with its reason and nothing changed |
| ArenaSession.Session.Fail | authorization/Debugger/DebugArenaSession.swift:90-98 | a refused reply is remembered and leads, once attached, to draining the batch and a detach; otherwise it ends the session with that reason |
| ArenaSession.Session.Drain | authorization/Debugger/DebugArenaSession.swift:105-105 | after a failure no reply is judged; the last one leads to the detach, the others to nothing |
| ArenaSession.Session.TakePacket | authorization/Debugger/DebugArenaSession.swift:78-99 | a packet that is not ASCII is refused; one that begins with O and is not OK is console output, counted, checked and dropped; any other is the answer to the oldest outstanding command, if that was acknowledged |
| ArenaSession.Session.Take | authorization/Debugger/DebugArenaSession.swift:65-100 | one received byte: an acknowledgement at most once, at most two retransmissions of exactly the last packet, at most two damaged packets, and no answer before the acknowledgement |
| ArenaSession.Session.Consume | authorization/Debugger/DebugArenaSession.swift:58-103 | no byte answers a command this call emitted; the session completes if and only if it was waiting for the OK to its detach and the bytes end with it, with nothing but console output before; a byte after that OK turns the call into a protocol failure, which replaces whatever the call had emitted |
| ArenaSession.Session.Begin | authorization/Debugger/DebugArenaSession.swift:36-40 | only an idle session begins, with qSupported and a deadline of 900 seconds |
| ArenaSession.Session.Receive | authorization/Debugger/DebugArenaSession.swift:56-103 | every call keeps the session sound; past a deadline, with the clock going back or with too many bytes it ends with that failure alone; in time its bytes do exactly what Consume says |
| ArenaSession.Session.Tick | authorization/Debugger/DebugArenaSession.swift:205-209 | before both deadlines nothing happens, otherwise the session ends with a timeout |
| ArenaSession.Session.Cancel | authorization/Debugger/DebugArenaSession.swift:210-210 | one failure the first time, nothing after the end |
| ArenaSession.Session.Disconnect | authorization/Debugger/DebugArenaSession.swift:211-211 | one failure the first time, nothing after the end |
| ArenaSession.Session.Finish | authorization/Debugger/DebugArenaSession.swift:212-215 | a failure is the only event of its call, and confirms the detach only after the server's OK to it |
| ArenaSession.Session.CommandsBounded | authorization/Debugger/DebugArenaSession.swift:145-204 | in every reachable state the number of commands is within the bound of the request |
| ArenaSession.Session.FinishedOnce | authorization/Debugger/DebugArenaSession.swift:56-103 | a finished event was returned exactly once if and only if the session is over |
| ArenaSession.Session.FinishDeserved | authorization/Debugger/DebugArenaSession.swift:174-179 | a returned success comes with the whole history of success, a confirmed detach with the server's OK to D |
| ArenaSession.Session.WritesReturned | authorization/Debugger/DebugArenaSession.swift:195-204 | writes handed to the caller hit pages of the regions, each at most once |
| ArenaSession.Session.TargetUnchanged | authorization/Debugger/DebugArenaSession.swift:104-204 | in every reachable state, an honest server that serves returned commands leaves the target's memory as it was |
| ArenaWire.Parse | authorization/Debugger/DebugProtocolWire.swift:17-26 | the session is told about each byte exactly what the packet parser makes of it, in order |
| ArenaWire.Receive | authorization/Debugger/DebugArenaSession.swift:56-103 | on raw bytes: in time, the bytes as the packet parser hears them do exactly what Consume says, under the one checksum rule in force when the call began; the parser switches to zero checksums exactly when acknowledgements are off |
| ArenaWire.PacketHeard | authorization/Debugger/DebugProtocolWire.swift:17-38 | the bytes of an encoded packet say nothing until the last one, and then the packet's text, whatever follows |
| ArenaWire.Close | authorization/Debugger/DebugArenaSession.swift:65-103 | the bytes of OK complete a session that waits for the answer to its detach; with any byte behind them in the same call they end it with a protocol failure |
| GuestPages.MappedMeans | runtime/GuestMemory.c:21-41 | mapping overrides exactly the pages of the range with demand-zero ones and keeps the array sorted |
| GuestPages.WithoutMeans | runtime/GuestMemory.c:42-50 | unmapping removes exactly the pages of the range |
| GuestPages.ProtectedMeans | runtime/GuestMemory.c:51-60 | protecting changes exactly the protection of the pages in the range |
| GuestPages.PageAtIff | runtime/GuestMemory.c:8-15 | in the sorted array a page is stored if and only if looking up its address finds it |
| GuestAccess.AccessMeans | runtime/GuestMemory.c:61-80 | access is granted if and only if every byte may be accessed; otherwise the fault address is the lowest byte that may not |
| GuestAccess.PokedChunk | runtime/GuestMemory.c:122-132 | storing one chunk extends the written prefix and touches no other page |
| GuestAccess.PokedMeans | runtime/GuestMemory.c:120-135 | a write replaces exactly its bytes and no permission |
| GuestAccess.FilledMeans | runtime/GuestMemory.c:109-119 | giving pages storage turns demand-zero pages into zero pages and nothing else, also when it runs out of memory |
| GuestAccess.SameFetch | runtime/GuestMemory.c:146-154 | a fetch depends only on what executable pages hold |
| GuestAccess.PokedCode | runtime/GuestMemory.c:101-134 | a write that touches no executable page changes no instruction any thread can fetch |
| GuestMemory.OverlapMeans | runtime/GuestMemory.c:24-25 | the two bounds differ if and only if some page of the range is mapped |
| GuestMemory.WholeMeans | runtime/GuestMemory.c:53-54 | the page count of the range equals its size if and only if every page of it is mapped |
| GuestMemory.MapAdvances | runtime/GuestMemory.c:21-41 | a mapping either leaves memory alone or raises the code generation |
| GuestMemory.UnmapAdvances | runtime/GuestMemory.c:42-50 | an unmapping either leaves memory alone or raises the code generation |
| GuestMemory.ProtectAdvances | runtime/GuestMemory.c:51-60 | a protection change either leaves memory alone or raises the code generation |
| GuestMemory.WriteAdvances | runtime/GuestMemory.c:81-136 | a write, granted, refused or out of memory, raises the code generation or changes no instruction |
| GuestMemory.WriteMeans | runtime/GuestMemory.c:81-145 | a granted write changes exactly its bytes; every other outcome changes no byte; permissions never change |
| GuestMemory.Memory.LowerBound | runtime/GuestMemory.c:8-15 | the binary search finds the first page at or above the address |
| GuestMemory.Memory.Map | runtime/GuestMemory.c:21-41 | result and new array of a mapping, with every refusal |
| GuestMemory.Memory.Unmap | runtime/GuestMemory.c:42-50 | result and new array of an unmapping |
| GuestMemory.Memory.Protect | runtime/GuestMemory.c:51-60 | result and new array of a protection change, with every refusal |
| GuestMemory.Memory.AccessRange | runtime/GuestMemory.c:61-80 | verdict and fault address of a whole range |
| GuestMemory.Memory.CopyOut | runtime/GuestMemory.c:81-139 | the one-page path and the general path read the same bytes and report the same faults |
| GuestMemory.Memory.CopyIn | runtime/GuestMemory.c:81-145 | the one-page path and the general path have one meaning: all bytes or none, both generations and the fault address included |
| GuestMemory.Memory.Store | runtime/GuestMemory.c:85-105 | the quick one-page write does what the general write does |
| GuestMemory.Memory.StoreAcross | runtime/GuestMemory.c:106-136 | storage first, then the chunks: running out of memory leaves every byte as it was |
| GuestMemory.Memory.Fetch | runtime/GuestMemory.c:146-154 | an aligned, executable instruction word, or the fault |
| GuestMemory.Memory.FindFree | runtime/GuestMemory.c:155-165 | the lowest free place at or above the hint, or GM_NOMEM if and only if there is none |
| GuestCode.CompareMeans | runtime/GuestCPU.c:23-41 | after a flag-setting subtraction the conditions EQ, NE, HS, LO, HI, LS, GE, LT, GT and LE compare the operands, unsigned or signed, in either width |
| GuestCode.AddMeans | runtime/GuestCPU.c:32-41 | carry and overflow of an addition are its leaving the unsigned and the signed range |
| GuestCode.ExpandLogical | runtime/GuestCPU.c:42-55 | the loops over length and repetition, with shifts and masks, compute the pattern that LogicalMeans describes; decoding uses them |
| GuestCode.LogicalMeans | runtime/GuestCPU.c:42-55 | bit j of a logical immediate is set if and only if (j + r) mod the element size is at most s; it is never all zeros or all ones |
| GuestCode.DecodeWord | runtime/GuestCPU.c:56-98 | decoding with the bitmask expanded where it is needed is the decoding all laws are about |
| GuestCode.DecodeMeans | runtime/GuestCPU.c:56-98 | a decoded instruction is valid, remembers its address and word and names registers below 32; shifts stay within the operand, branches from aligned instructions lead to aligned ones, a load or store moves 1, 2, 4 or 8 bytes at a multiple of that, a bitmask is neither empty nor full |
| GuestCPU.CarryGood | runtime/GuestCPU.c:161-175 | whatever an instruction does, memory moves on without silently changing code |
| GuestCPU.CoherentKept | runtime/GuestCPU.c:151-160 | no memory operation makes an entry of any processor's cache wrong while its generation still matches |
| GuestCPU.CPU.Reset | runtime/GuestCPU.c:145-147 | a reset processor agrees with every memory |
| GuestCPU.CPU.Lookup | runtime/GuestCPU.c:151-160 | the cached entry is what fetching and decoding now would give, and a fetch fault is reported as without a cache |
| GuestCPU.CPU.Transfer | runtime/GuestCPU.c:161-173 | loads and stores, with the fault of the memory access |
| GuestCPU.CPU.Step | runtime/GuestCPU.c:161-175 | one instruction changes registers, memory and the retired count as the plain machine does |
| GuestCPU.CPU.Run | runtime/GuestCPU.c:148-178 | a run with the 4096-entry cache ends with the same registers, memory, retired count and result, fault included, as fetching and decoding at every step |
| GuestRuns.RunGood | runtime/GuestCPU.c:148-178 | a run moves memory on like its stores, so it keeps other processors' caches coherent |
| GuestRuns.ActGood | runtime/GuestMemory.c:21-145 | every memory call, reset and run keeps all caches coherent |
| GuestRuns.Act | runtime/GuestCPU.c:145-178 | one action on processor and memory answers as the machine without a cache |
| GuestRuns.ActAll | runtime/GuestCPU.c:145-178 | over every sequence of runs, mappings, protections, writes, loads and JIT switches the cache is never noticed |
| XPCForm.Ordered | authorization/Transport/RemoteXPCWire.swift:120-120 | the keys of a dictionary in increasing order, each once |
| XPCWriter.SortedKeys | authorization/Transport/RemoteXPCWire.swift:120-120 | selection computes that increasing order |
| XPCWriter.Writer.Add | authorization/Transport/RemoteXPCWire.swift:80-82 | bytes are appended exactly while the payload limit allows |
| XPCWriter.Writer.PutText | authorization/Transport/RemoteXPCWire.swift:86-90 | a string is written exactly when it has no NUL and fits, with its zero and padding |
| XPCWriter.Writer.PatchLength | authorization/Transport/RemoteXPCWire.swift:123-126 | the length field, and nothing else, is rewritten |
| XPCWriter.Patched | authorization/Transport/RemoteXPCWire.swift:113-126 | a length written as zero and patched later is the length of what follows |
| XPCWriter.Writer.PutArray | authorization/Transport/RemoteXPCWire.swift:113-116 | exactly the form of the array, exactly when all of it fits |
| XPCWriter.Writer.PutDictionary | authorization/Transport/RemoteXPCWire.swift:117-121 | exactly the form of the dictionary, exactly when all of it fits |
| XPCWriter.Writer.Object | authorization/Transport/RemoteXPCWire.swift:91-122 | a value is accepted if and only if it is legal and within depth, node and payload limits, and then exactly its form is appended |
| XPCReader.Reader.Object | authorization/Transport/RemoteXPCWire.swift:37-76 | the recursive reader with its cursor computes the parse of the bytes |
| XPCReader.Reader.Box | authorization/Transport/RemoteXPCWire.swift:54-73 | a container is read inside its own limit and must end there |
| XPCReader.Reader.Items | authorization/Transport/RemoteXPCWire.swift:60-71 | the loop over the items of an array |
| XPCReader.Reader.Entries | authorization/Transport/RemoteXPCWire.swift:60-71 | the loop over the entries of a dictionary, refusing a key that was seen |
| XPCReader.Reader.Key | authorization/Transport/RemoteXPCWire.swift:62-67 | the key up to its zero, with its padding |
| XPCReader.Reader.Counted | authorization/Transport/RemoteXPCWire.swift:49-52 | data and strings with length, padding and terminator |
| XPCParse.LeafRead | authorization/Transport/RemoteXPCWire.swift:37-53 | every value that is no container reads back |
| XPCParse.KeyRead | authorization/Transport/RemoteXPCWire.swift:62-67 | a written key reads back and ends where the writer's padding ends |
| XPCParse.ReadBack | authorization/Transport/RemoteXPCWire.swift:37-127 | every form that fits, at any nesting, reads back as its value with the same node count and end |
| XPCAgreement.LoadSame | authorization/Transport/RemoteXPCWire.swift:117-121 | the order of the keys changes neither the size nor the node count of a dictionary |
| XPCAgreement.ObjectHonest | authorization/Transport/RemoteXPCWire.swift:37-127 | whatever the reader accepts is legal at its depth, within the node limit, and as long as its own form |
| XPCAgreement.DecodedEncodable | authorization/Transport/RemoteXPCWire.swift:128-153 | whatever decodes can be encoded again, to as many bytes, and these decode to the same message |
| XPCMessages.Encode | authorization/Transport/RemoteXPCWire.swift:128-139 | a message is encoded if and only if its value fits, as header and payload |
| XPCMessages.Decode | authorization/Transport/RemoteXPCWire.swift:140-153 | decoding computes the message of the bytes, with every refusal |
| XPCMessages.RoundTrip | authorization/Transport/RemoteXPCWire.swift:128-153 | every message that can be encoded decodes to itself if its flags are odd and is refused if they are even |
| XPCMessages.WireInjective | authorization/Transport/RemoteXPCWire.swift:128-153 | no two messages share their bytes |
| XPCMessages.Stream.Consume | authorization/Transport/RemoteXPCWire.swift:160-177 | a piece of the stream yields the messages it completes; an error ends the stream for good |
| XPCMessages.Stream.Finish | authorization/Transport/RemoteXPCWire.swift:178-181 | the end is an error exactly when a message is incomplete or the stream had failed |
| XPCMessages.FeedConcat | authorization/Transport/RemoteXPCWire.swift:160-177 | where the stream is cut makes no difference |
| XPCMessages.FeedMessages | authorization/Transport/RemoteXPCWire.swift:160-177 | the bytes of several messages yield exactly these messages and leave nothing behind |
| XPCMessages.Receive | authorization/Transport/RemoteXPCWire.swift:160-177 | concatenated messages arrive as sent, in whatever pieces of at most 65,536 bytes they are delivered |

## Left out

- TunnelTCP.Connection.Receive: takes decoded segments; the IPv6 and TCP header codec with its checksums is not part of the model.
- TunnelTCP.Connection.Tick: time is a real number, so the guard against a clock that is not finite is not modelled.
- TunnelRuns.Run: what it says about the peer's stream assumes that the segments something is taken from lie within 2^31 of the next expected number and carry the bytes of one stream.
- SparseMemory.Initialize: NULL arguments and a handle that is in use already are not modelled; which allocation fails is not told apart.
- SparseMemory.HomeSlots: the proofs hold for every hash; this is the one the source uses.
- SparseDriver.Copy: covers two software addresses; copies to or from host memory go through the operating system.
- VMBudget.Budget.FreeSpan: that the hole is the first one assumes kernel answers about one unchanging layout; after 4096 steps the search gives up.
- VMBudget.Budget.ApplyRange: for a call some of whose pieces the kernel refused, what remains in the table is told by reserved and the table's shape only.
- VMBudget.Budget.Reserve: the kernel places mappings page aligned and at least two pages below the top of the address space.
- VMBudget.Budget.Apply: `gv_unmap`, `gv_protect` and `gv_advise` are its three operations; errno values are answers.
- InitializationOrder.Initializer.Order: the 64-bit mask of seen libraries is a set, and path matching is a function from a library to the libraries it links.
- ArenaWire.Receive: parses the bytes of a call before the session looks at them; the source stops at the first failure, after which neither parser nor session is used again.
- ArenaSession.Session.SendBatch: records commands; their packet bytes are those of the packet codec.
- GuestMemory.Memory.Map: the size limit of the page array is part of the parameter that says whether it can be allocated, since 2^50 pages never reach it.
- GuestMemory.Memory.CopyIn: NULL buffers are not modelled.
- GuestCPU.CPU.Run: after a result other than a memory fault the fault address and memory result left behind may differ from the plain machine's.
- GuestCode.DecodeMeans: the meaning of each encoding in the Arm architecture is not restated; decoding and execution follow the source.
- XPCWriter.Writer.Object: which of the two errors is thrown is not modelled, only that one is; the same holds for the reader.
- XPCForm.Ordered: keys are ordered by their UTF-8 bytes; any order would read back the same.
- Strings compare by their bytes, not by canonical equivalence, and doubles are bit patterns.
- Signal handling, Mach VM, instruction cache maintenance and debugger traps are effects of the operating system.
- Network, TLS, keychain, pairing proofs and their libraries are outside these sources.
- Image files, path resolution and symbol lookup in the linker read the file system.
- The classification of exclusive and memory instruction forms in runtime/GuestExclusive.c and runtime/GuestMemoryInstruction.c.
- The CDTunnel and pairing codecs, the user interface, the launcher, the shims, the build tools and the profiles.
