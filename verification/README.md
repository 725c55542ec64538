# LAN-play client and lwIP: a verified model

This project models the allocators, queues, tables and arithmetic of a LAN-play relay client
and of the lwIP stack it carries, and proves what each of them is for. Its proofs are checked by
`dafny verify dfyconfig.toml`.

| modules | component |
|---|---|
| `Heap`, `HeapRuns` | the first-fit heap of mem.c (the variant with its own block list), as a class over block headers, and what clients of it may rely on over whole runs |
| `Select`, `SelectRuns` | the wake-up protocol between `lwip_select` and `event_callback`, as interleaved steps of any number of threads, and what callers may rely on in terms of the events delivered |
| `WriteQueue`, `WriteRuns`, `UvTcp` | the write queue of uv_lwip: a pure model, its runs, and the linked requests it really consists of |
| `Relay`, `Reassembly`, `RelayRuns`, `RelayEvict` | fragmentation and reassembly of relayed packets, and which packet gives way when the table is full |
| `Pbuf`, `PbufData`, `PbufCopy` | packet buffers: reading, comparing, writing and copying bytes across chains |
| `PbufRefs`, `PbufOps`, `PbufShape`, `PbufRuns`, `PbufStore` | packet buffers: reference counts, total lengths, chains that grow, shrink and share tails |
| `Checksum` | the Internet checksum, in three versions, over chains and with pseudo headers |
| `Pool` | memp pools and the check of their free list |
| `Arp` | the ARP cache |
| `Sha1` | SHA-1, compression and streaming |
| `Dns`, `DnsRuns`, `DnsTable` | the table of DNS queries |
| `Base64` | base64 |

Each part has a specification that does not look like the code: a tiling of the heap and the
client's own books of what it holds, the byte stream, the flattened packet, the set of
references, the sum modulo 65535, the map of the last stored addresses, FIPS 180-4, RFC 4648.
Code that changes things in place is a class or a method with loops, proved against functions
of the old state; the theorems are about those functions and about all runs of them. Every lemma
switches automatic induction off, so that each induction is written out in its body.

## Where the code and its promise part

Some promises hold only under a condition. The code is modelled as it is, and the condition is
proved.

- `mem_malloc` rounds sizes up in the width of `mem_size_t`. `Heap.RequestHonoured`: a request is served with at least its size exactly if rounding does not wrap around.
- `uvl_imp_write_to_tcp` reads behind an empty buffer array. `WriteQueue.FaultExact`: this can happen exactly if a request behind the first unfinished one has no buffers; `WriteRuns.EmptyRequestFaults` is a run of three events that gets there.
- `pbuf_copy` refuses targets that are large enough. `PbufData.Packets.Copy` gives the exact condition, `PbufCopy.CopySucceeds`, and `PbufCopy.CopyMayFail` an example. The source must not end in empty pbufs, unless it is a single pbuf or a pair whose first fits. If the target ends in empty pbufs, the source must end before the target's last pbuf with bytes; if just before it, there must be empty pbufs there for the rounds that copy nothing. Where that pbuf is the first, the target must be a pair, and its first pbuf be filled from the source's first.
- `pbuf_cat`, `pbuf_chain`, `pbuf_dechain` and `pbuf_realloc` leave wrong total lengths in other chains. `PbufRuns.StepTotLens`: exactly if another chain runs into the part that changes and its length changes. Counts and links stay right all the same.
- `pbuf_dechain` counts freed pbufs in 8 bits. `PbufStore.Buffers.Dechain`: its result is right exactly if the number freed is 0 or not a multiple of 256.
- The ARP cache may forget what is stored for 0.0.0.0. `Arp.LookupIsLast` for every other address; `Arp.NoneIsLost`: a store for another address takes its slot exactly if no earlier slot is unused, outdated or for that address.
- `SHA1Update` tests for a full block in 32 bits. `Sha1.GuardExact`: the test is right, and the last copy stays inside the buffer, exactly if the place in the buffer and the length add up within 32 bits.
- `dns_enqueue` measures age in 8 bits. `DnsTable.Resolver.Enqueue`: it refuses exactly if no entry is unused and each completed one is a multiple of 256 requests old.

## Assumptions

- The build's lwip/custom/lwipopts.h compiles out the mem.c heap, the memp free lists, sockets and DNS in favour of libc and callbacks. Their source text is modelled in the variant named with each module; pbuf.c, inet_chksum.c, uv_lwip and the client's own files are live.
- `MEM_ALIGNMENT` is 4. The host is little-endian.
- TCP is abstracted to a send buffer that takes some of the bytes offered, or refuses with `ERR_MEM`, as an arbitrary sequence of refusals decides. The clock, transaction ids in runs, and the verdict on a DNS message are parameters.
- Select: sockets stay open, `select_waiting` and `select_cb_ctr` do not wrap around, and `rcvevent` is not bounded. The doubly linked list is a sequence.
- Callbacks do not call back into the component that calls them.

## Model

| member | source | states |
|---|---|---|
| Heap.RequestHonoured | lwip/src/core/mem.c:602-630 | the served size covers the requested one exactly if rounding up does not wrap in `mem_size_t`; sizes up to the heap's own are covered, and never by more than the alignment or the minimum size asks |
| Heap.MemHeap.constructor | lwip/src/core/mem.c:381-410 | the heap starts as one free block, with links and `lfree` right |
| Heap.MemHeap.PlugHoles | lwip/src/core/mem.c:343-376 | a freed block is merged with free neighbours on both sides; the headers still spell out the block list, and no free neighbours remain |
| Heap.MemHeap.Free | lwip/src/core/mem.c:418-465 | the block list becomes that of `Freed`, null and pointers outside the heap change nothing; tiling, links, coalescing and `lfree` are kept; only headers of blocks are written |
| Heap.MemHeap.Trim | lwip/src/core/mem.c:477-592 | the answer and the block list are those of `TrimAccepts` and `Trimmed`: the pointer or NULL, shrinking in place, moving a free successor down or splitting off a new block; only headers of blocks are written |
| Heap.MemHeap.Malloc | lwip/src/core/mem.c:602-742 | first fit in address order although the scan starts at `lfree` and stops early; NULL exactly for size 0 or if no free block can hold the aligned size; only headers of blocks are written |
| Heap.NoFitBeyond | lwip/src/core/mem.c:641-642 | a block that starts at the scan's limit or later cannot hold the size |
| Heap.LowestFreeRelease | lwip/src/core/mem.c:450-455 | comparing with `lfree` keeps it the lowest free block |
| Heap.CarveWellFormed | lwip/src/core/mem.c:650-700 | handing out a block keeps tiling, minimum sizes and coalescing |
| Heap.ReleaseWellFormed | lwip/src/core/mem.c:343-376 | so does freeing one |
| Heap.ShrinkWellFormed | lwip/src/core/mem.c:512-585 | so does trimming one |
| HeapRuns.MallocAgrees | lwip/src/core/mem.c:602-742 | a pointer handed out is new to the client, and every pointer the client holds is still that of a used block with its room |
| HeapRuns.FreeAgrees | lwip/src/core/mem.c:418-465 | freeing takes away just that pointer |
| HeapRuns.TrimAgrees | lwip/src/core/mem.c:477-592 | trimming changes the room of just that pointer |
| HeapRuns.TrimRoom | lwip/src/core/mem.c:512-585 | an accepted trim leaves the pointer exactly the aligned size if the block behind it is free or the rest can hold a header and the minimum size, and all its room otherwise |
| HeapRuns.TrimRefused | lwip/src/core/mem.c:486-511 | a trim is refused exactly if the aligned size is more than the pointer's room |
| HeapRuns.TrimGivesBack | lwip/src/core/mem.c:523-580 | after a trim, a malloc of any size that fits into what the pointer lost succeeds |
| HeapRuns.TrimmedThenMalloc | lwip/src/core/mem.c:523-580 | so it is at every point of every run |
| HeapRuns.MallocRoom | lwip/src/core/mem.c:641-700 | the lowest free block that is large enough is taken, and the pointer gets exactly the aligned size of it if the rest can hold a header and the minimum size, and all of it otherwise |
| HeapRuns.MallocLeavesRest | lwip/src/core/mem.c:650-700 | the rest of a split block can be allocated |
| HeapRuns.RunAgrees | lwip/src/core/mem.c:343-742 | in every run of malloc, free and trim the heap is well formed and its used blocks are exactly the pointers held, with at least their room |
| HeapRuns.HeldDisjoint | lwip/src/core/mem.c:343-742 | in every run, what two held pointers cover, headers included, is disjoint, aligned and inside the heap |
| HeapRuns.AllFreedIsInitial | lwip/src/core/mem.c:343-465 | in every run, nothing is held exactly if the heap is the single initial block again |
| HeapRuns.HeldUnmoved | lwip/src/core/mem.c:343-742 | through any later calls that are not about it a held pointer stays that of a used block with its room, and no header overlaps its bytes |
| HeapRuns.CallClear | lwip/src/core/mem.c:343-742 | no header of the blocks before or after such a call, where alone a call writes, overlaps the bytes of a held pointer |
| Select.StepKeeps | lwip/src/api/sockets.c:1305-1685 | every step of every thread keeps the invariants of list, walks, counters and wake-ups |
| Select.RunInv | lwip/src/api/sockets.c:1305-1685 | they hold in every state of every interleaving |
| Select.NoLostWakeup | lwip/src/api/sockets.c:1393-1485 | in every interleaving, a thread blocked after its second scan with an event on a watched socket is signalled already or is still ahead of an `event_callback` for that socket, restarts included |
| Select.WalkDelivers | lwip/src/api/sockets.c:1645-1684 | such a callback, left to run, signals the thread after as many visits as there are list entries up to it |
| Select.WakeupDelivered | lwip/src/api/sockets.c:1610-1684 | in every run, such a thread is signalled already or some callback in progress will signal it |
| Select.WalkersSafe | lwip/src/api/sockets.c:1508-1522 | a callback only follows links of entries still on the list, and entries on the list belong to threads still inside `lwip_select` |
| Select.WaitingExact | lwip/src/api/sockets.c:1440-1507 | `select_waiting` is the number of threads counted on the socket, and 0 once the list is empty |
| SelectRuns.SocketsTally | lwip/src/api/sockets.c:1612-1630 | in every run `rcvevent` is its first value plus arrivals minus departures, `sendevent` what the last event about sending said, `errevent` set once an error came |
| SelectRuns.EventsWake | lwip/src/api/sockets.c:1612-1684 | in every run a blocked thread with more arrived than taken on a socket of its read set, or sending possible on one of its write set, or an error on one of its except set, is signalled already or some callback in progress will signal it |
| SelectRuns.ScansRight | lwip/src/api/sockets.c:1306-1367 | in every run a thread blocks only after its second scan found each descriptor not ready, `lastdata` included, and a scan counts something only if it saw something ready |
| SelectRuns.PollReturns | lwip/src/api/sockets.c:1393-1402 | a call that only polls never registers or blocks |
| SelectRuns.Returns | lwip/src/api/sockets.c:1391-1563 | in every run a thread that is signalled, timed out, polling or has seen something ready returns after a bounded number of its own steps |
| WriteQueue.PutBufOnce | uv_lwip/uv_lwip.c:119-154 | the loop gets at most one write accepted, which finishes the buffer or fills the send buffer |
| WriteQueue.PutBufStream | uv_lwip/uv_lwip.c:119-154 | one call moves a prefix of the request's remaining bytes to TCP and counts it in all counters |
| WriteQueue.PutBufStops | uv_lwip/uv_lwip.c:119-154 | it returns 1 exactly if a buffer was finished, and 0 only for a full send buffer or a refused write |
| WriteQueue.PumpFlow | uv_lwip/uv_lwip.c:160-211 | across requests and buffers the bytes handed to TCP are exactly the front of what was left, in order |
| WriteQueue.PumpStops | uv_lwip/uv_lwip.c:160-211 | bytes are left only for a full send buffer or a refused write |
| WriteQueue.PumpRoomy | uv_lwip/uv_lwip.c:160-211 | with room for everything and no refusal nothing is left |
| WriteQueue.PumpSafe | uv_lwip/uv_lwip.c:160-211 | with a buffer in each later request it never reads past a buffer array |
| WriteQueue.FaultExact | uv_lwip/uv_lwip.c:160-211 | it can do so, for some behaviour of TCP, exactly if a request behind the first unfinished one has no buffers |
| WriteQueue.CreditCounts | uv_lwip/uv_lwip.c:304-353 | an acknowledgement that fits the queue is used up entirely |
| WriteQueue.CreditInOrder | uv_lwip/uv_lwip.c:304-353 | a request is credited only after everything before it has nothing pending |
| WriteRuns.EventKeeps | uv_lwip/uv_lwip.c:68-353 | every possible event stays inside the queue and the buffer arrays, and keeps the invariant; a request without buffers may be submitted whenever all before it are handed over |
| WriteRuns.EmptyRequestFaults | uv_lwip/uv_lwip.c:160-211 | otherwise it makes the loop read past its empty array |
| WriteRuns.RunInv | uv_lwip/uv_lwip.c:68-353 | it holds in every run |
| WriteRuns.WireIsPrefix | uv_lwip/uv_lwip.c:119-211 | in every run the bytes handed to `tcp_write` are a prefix of all submitted buffers in order, and the rest is what the queue holds |
| WriteRuns.PendingAccounts | uv_lwip/uv_lwip.c:304-353 | in every run the pending counters add up to the unacknowledged bytes, and to `recv_bytes - sent_bytes` in 32 bits |
| WriteRuns.CallbacksExactlyOnce | uv_lwip/uv_lwip.c:68-117 | in every run callback i is for request i, requests without one are those queued, and status 0 means that all its bytes are acknowledged |
| WriteRuns.WriteCbPumps | uv_lwip/uv_lwip.c:90-117 | in every run the write callback of an open connection leaves bytes in the queue only for a full send buffer or a refused write |
| WriteRuns.WriteCbSendsAll | uv_lwip/uv_lwip.c:90-117 | with room in the send buffer and no refusal, TCP then has everything ever submitted |
| WriteRuns.CallbacksPrompt | uv_lwip/uv_lwip.c:90-117 | after it every request that was acknowledged in full has its callback |
| WriteRuns.OpenMeansWritten | uv_lwip/uv_lwip.c:68-117 | while the connection is open all callbacks report success; once closed it stays closed |
| WriteRuns.CloseAnswersAll | uv_lwip/uv_lwip.c:213-225 | closing leaves no request without its callback |
| UvTcp.Client.Write | uv_lwip/uv_lwip.c:473-503 | the linked queue gets the request at its tail, and the connection makes the model's submit step |
| UvTcp.Client.WriteBufToTcp | uv_lwip/uv_lwip.c:119-154 | request, TCP and `recv_bytes` become what the model's one call makes of them |
| UvTcp.Client.WriteToTcp | uv_lwip/uv_lwip.c:160-211 | the linked requests become what the model's pump makes of the queue |
| UvTcp.Client.Sent | uv_lwip/uv_lwip.c:304-353 | crediting never runs off the linked queue, and is the model's acknowledgement step |
| UvTcp.Client.CancelReqs | uv_lwip/uv_lwip.c:68-88 | every queued request gets its callback with an error, in order, and the queue is empty |
| UvTcp.Client.AsyncWriteCb | uv_lwip/uv_lwip.c:90-117 | finished requests at the head get their callback, in order, as in the model's step |
| Relay.HeaderRoundTrip | client-switch-lan-play/lan-client.c:4-20 | a fragment header is read back as it was written, and the payload follows it |
| Relay.PartsCount | client-switch-lan-play/lan-client.c:459-504 | a packet that needs fragments has two or three, all full but the last |
| Relay.PartsCover | client-switch-lan-play/lan-client.c:474-500 | part i starts inside the packet exactly if i is below the number of parts |
| Relay.FragmentLayout | client-switch-lan-play/lan-client.c:13-20 | a fragment has the type octet, source, destination, id, part, number of parts, length and part size at their places, high octet first, and then the part's bytes |
| Relay.Sender.Send | client-switch-lan-play/lan-client.c:459-504 | a packet that fits goes out whole, another as its fragments under one id, as many as the socket takes, each with that layout |
| Reassembly.Receiver.constructor | client-switch-lan-play/lan-client.c:50-133 | all slots are free |
| Reassembly.Receiver.ProcessFrag | client-switch-lan-play/lan-client.c:252-331 | table, counter and delivered packet are those of `Process`: the packet's slot, a free one or the oldest is used |
| RelayRuns.ProcessKeepsDistinct | client-switch-lan-play/lan-client.c:252-331 | no two used slots ever have the same source and id, evictions included |
| RelayRuns.ProcessArrives | client-switch-lan-play/lan-client.c:252-331 | a fragment does to the table what its arrival does to the set of parts received of its packet |
| RelayRuns.FeedRepresents | client-switch-lan-play/lan-client.c:252-331 | after any arrivals, repeated ones and ids used again included, the table represents exactly the incomplete packets and each arrival has delivered what it should, as long as no arrival finds its id taken by another incomplete packet or, when it starts one, the table full |
| RelayRuns.EveryPacketOnceWhole | client-switch-lan-play/lan-client.c:252-331 | for every interleaving and order of fragments of any number of transmissions, with at most a table-full of them under way at a time, an arrival delivers its whole packet if all parts of its transmission have then arrived, and nothing otherwise |
| RelayRuns.DeliveredOnce | client-switch-lan-play/lan-client.c:252-331 | of the arrivals of a transmission whose parts all arrive, exactly one delivers the packet |
| RelayEvict.FullRefuses | client-switch-lan-play/lan-client.c:291-331 | a fragment of a new packet that finds the table full changes neither table nor counter exactly if every stamp is within LC_FRAG_COUNT of the counter |
| RelayEvict.FullEvicts | client-switch-lan-play/lan-client.c:291-331 | otherwise just one slot changes, the first of those with the farthest stamp, and it then holds that part of the new packet only |
| RelayEvict.LosesSlotOnlyIfOld | client-switch-lan-play/lan-client.c:252-331 | in every run with up to 65536 packets given a slot, a packet loses its slot to another only when more than LC_FRAG_COUNT packets, itself included, were given one since |
| RelayEvict.FreedMeansDelivered | client-switch-lan-play/lan-client.c:313-327 | and gives it up otherwise only by being delivered |
| Pbuf.TotLenCounts | lwip/src/include/lwip/pbuf.h:150-160 | the `tot_len` invariant makes it the number of bytes of the packet |
| Pbuf.PutContent | lwip/src/core/pbuf.c:1148-1213 | writing into one pbuf overwrites the packet's bytes at its place there, and nothing else |
| PbufData.Packets.Skip | lwip/src/core/pbuf.c:1103-1135 | the pbuf that holds the byte at an offset and the place in it, or none exactly beyond the end |
| PbufData.Packets.TryGetAt | lwip/src/core/pbuf.c:1316-1327 | the packet's byte at the offset, or a negative number beyond the end |
| PbufData.Packets.GetAt | lwip/src/core/pbuf.c:1298-1306 | the packet's byte at the offset, or 0 beyond the end |
| PbufData.Packets.PutAt | lwip/src/core/pbuf.c:1338-1348 | changes that byte of the packet, or nothing beyond the end |
| PbufData.Packets.MemCmp | lwip/src/core/pbuf.c:1361-1389 | 0 exactly if the packet's bytes at the offset are the given ones, else one more than the first difference, or 0xffff if it is too short |
| PbufData.Packets.MemFind | lwip/src/core/pbuf.c:1403-1417 | the first occurrence from the offset on; in packets below 0xffff bytes, 0xffff exactly if there is none |
| PbufData.Packets.CopyPartial | lwip/src/core/pbuf.c:1014-1051 | the packet's bytes from the offset on, as many as there are up to the length, at the front of the buffer, the rest of which stays |
| PbufData.Packets.Take | lwip/src/core/pbuf.c:1148-1179 | the error for each case; on success the bytes stand over those of the packet from that pbuf on, other pbufs and all lengths stay |
| PbufData.Packets.TakeAt | lwip/src/core/pbuf.c:1192-1213 | succeeds exactly if the offset is inside the packet and the bytes fit; then they stand at the offset, all else stays |
| PbufData.Packets.WriteThenRead | lwip/src/core/pbuf.c:1014-1213 | what `pbuf_take_at` wrote is what `pbuf_copy_partial` then reads there |
| PbufData.TakeThenCopy | lwip/src/core/pbuf.c:1014-1213 | on the bytes of a packet: what is written at a place is read there, and other ranges read as before |
| PbufData.Packets.Copy | lwip/src/core/pbuf.c:947-1000 | on success the source's bytes stand at the front of the target, however the two are split; success exactly if the target is large enough and `CopySucceeds` |
| PbufCopy.CopyMayFail | lwip/src/core/pbuf.c:947-1000 | a target with enough room that is refused |
| PbufCopy.Onward | lwip/src/core/pbuf.c:947-1000 | a round that takes none of the exits keeps what the loop knows about both cursors |
| PbufCopy.TargetExit | lwip/src/core/pbuf.c:992-996 | a target taken for a packet queue is one that `CopySucceeds` excludes |
| PbufCopy.LandingEnds | lwip/src/core/pbuf.c:960-999 | a copy that reaches the end of the source is one that `CopySucceeds` allows |
| PbufRefs.ReleasedIs | lwip/src/core/pbuf.c:714-791 | `pbuf_free` frees exactly the pbufs from the head on with a single reference, lowers the first other count by one, and changes nothing else |
| PbufRefs.FreeKeeps | lwip/src/core/pbuf.c:714-791 | it keeps counts and links right, with one reference of the program gone |
| PbufRefs.FreeTotLens | lwip/src/core/pbuf.c:714-791 | it keeps total lengths right |
| PbufRefs.NoLeak | lwip/src/core/pbuf.c:714-791 | every allocated pbuf is reached from a reference the program holds |
| PbufRefs.AllocatedIsReachable | lwip/src/core/pbuf.c:714-927 | a pbuf is allocated exactly if the program can reach it |
| PbufRefs.AllFreed | lwip/src/core/pbuf.c:714-791 | nothing is allocated exactly if the program holds no references |
| PbufOps.RefKeeps | lwip/src/core/pbuf.c:819-827 | one more count for one more reference held |
| PbufOps.JoinTotLens | lwip/src/core/pbuf.c:839-862 | `pbuf_cat` keeps all total lengths right exactly if no other chain runs into the extended one, or nothing is added |
| PbufOps.CatKeeps | lwip/src/core/pbuf.c:839-862 | counts and links stay right, whoever else refers into either chain: the program's reference to the tail becomes that of the chain |
| PbufOps.CatContent | lwip/src/core/pbuf.c:839-862 | the packet then is the bytes of both packets in order |
| PbufOps.ChainKeeps | lwip/src/core/pbuf.c:881-888 | with `pbuf_chain` the program keeps its reference as well |
| PbufOps.ChainTotLens | lwip/src/core/pbuf.c:881-888 | `pbuf_chain` keeps all total lengths right exactly if no other chain runs into the extended one, or nothing is added |
| PbufOps.DechainTotLens | lwip/src/core/pbuf.c:898-927 | `pbuf_dechain` keeps all total lengths right exactly if the pbuf heads its chain, or the rest has no bytes |
| PbufOps.DechainKeeps | lwip/src/core/pbuf.c:898-927 | for every pbuf it keeps counts and links right, every chain through it ending there, and the program holds what it held |
| PbufShape.AllocKeeps | lwip/src/core/pbuf.c:284-350 | the new chain has right links and counts, and the program holds its head |
| PbufShape.AllocTotLens | lwip/src/core/pbuf.c:284-350 | and right total lengths |
| PbufRuns.ReallocKeeps | lwip/src/core/pbuf.c:492-555 | shrinking keeps counts and links right, whoever else refers into the chain |
| PbufRuns.ReallocTotLens | lwip/src/core/pbuf.c:492-555 | it keeps all total lengths right exactly if no other chain runs into the part that stays |
| PbufRuns.ReallocContent | lwip/src/core/pbuf.c:492-555 | the packet then is its first bytes up to the new length |
| PbufRuns.CutAtIs | lwip/src/core/pbuf.c:518-532 | the walk stops at the pbuf in which the new end lies |
| PbufRuns.DataStays | lwip/src/core/pbuf.c:247-927 | no operation changes the bytes of a pbuf that stays allocated, except that `pbuf_realloc` may shorten them |
| PbufRuns.DechainContent | lwip/src/core/pbuf.c:898-927 | `pbuf_dechain` leaves the first pbuf with its bytes and the rest, if still referenced, with the rest of the packet |
| PbufRuns.StepKeeps | lwip/src/core/pbuf.c:247-927 | every operation keeps counts and links right, however chains are shared |
| PbufRuns.StepTotLens | lwip/src/core/pbuf.c:247-927 | it keeps all total lengths right exactly if it changes none that another chain relies on |
| PbufRuns.RunsAreSound | lwip/src/core/pbuf.c:247-927 | in every run of alloc, ref, free, cat, chain, dechain and realloc, however chains are shared: allocated is reachable, counts are the references held and the next fields, and nothing is allocated exactly if nothing is held |
| PbufRuns.RunsKeepTotals | lwip/src/core/pbuf.c:247-927 | in every run whose steps change no length that another chain relies on, `tot_len` is the packet's length for every pbuf |
| PbufStore.Buffers.Release | lwip/src/core/pbuf.c:714-791 | the loop does to memory what `Released` says, gives the pbufs back to the free list in order, and returns their number modulo 256 |
| PbufStore.Buffers.Free | lwip/src/core/pbuf.c:714-791 | the run step of giving up a reference; each pool pbuf stays either allocated or once on the free list |
| PbufStore.Buffers.Ref | lwip/src/core/pbuf.c:819-827 | the run step of taking a reference |
| PbufStore.Buffers.Cat | lwip/src/core/pbuf.c:839-862 | the run step of appending a packet |
| PbufStore.Buffers.Chain | lwip/src/core/pbuf.c:881-888 | the run step of chaining a packet |
| PbufStore.Buffers.Dechain | lwip/src/core/pbuf.c:898-927 | the run step of cutting off the rest; the result is the rest or NULL as it should be exactly if the number of freed pbufs is 0 or not a multiple of 256 |
| PbufStore.Buffers.Realloc | lwip/src/core/pbuf.c:492-555 | the run step of shrinking, though it frees the rest before cutting it off |
| PbufStore.Buffers.Alloc | lwip/src/core/pbuf.c:247-350 | NULL exactly if the pool has fewer pbufs than the length takes, and then nothing is lost; otherwise the run step with pbufs of the right sizes, length bytes in all |
| PbufStore.SizesAre | lwip/src/core/pbuf.c:284-350 | the first pbuf has what its headroom leaves, all but the last are full, and there are just as many as the length takes |
| PbufStore.ReleaseConserves | lwip/src/core/pbuf.c:755-775 | what leaves memory is what the free list gains |
| Checksum.StandardChksum1 | lwip/src/core/inet_chksum.c:79-114 | the one's complement sum of the 16-bit words, of up to 0x20000 bytes |
| Checksum.StandardChksum2 | lwip/src/core/inet_chksum.c:132-173 | the same, whatever the parity of the start address, without overflow up to length 0x20000 |
| Checksum.StandardChksum3 | lwip/src/core/inet_chksum.c:188-255 | the same, for every start address modulo 4 and 8, with the carries of the unrolled loop |
| Checksum.FoldTwice | lwip/src/include/lwip/inet_chksum.h:46-52 | two folds reduce any 32-bit sum |
| Checksum.SwapReduced | lwip/src/include/lwip/inet_chksum.h:46-52 | exchanging the bytes is multiplication by 256 modulo 65535 |
| Checksum.ChainAdd | lwip/src/core/inet_chksum.c:264-278 | adding the sum of the next pbuf to an accumulator that is exchanged exactly after an odd number of bytes |
| Checksum.ChainSum | lwip/src/core/inet_chksum.c:398-426 | over a chain, however it is split, the reduced sum of its first bytes taken together |
| Checksum.InetChksum | lwip/src/core/inet_chksum.c:554-558 | the Internet checksum of the bytes |
| Checksum.InetChksumPbuf | lwip/src/core/inet_chksum.c:567-589 | exactly the Internet checksum of the chain's bytes taken together |
| Checksum.InetChksumPseudo | lwip/src/core/inet_chksum.c:259-327 | exactly the Internet checksum of the pseudo header followed by the chain's bytes |
| Checksum.InetChksumPseudoPartial | lwip/src/core/inet_chksum.c:398-473 | the same for the first bytes of the chain |
| Checksum.ReceiverAccepts | lwip/src/core/inet_chksum.c:554-589 | summing everything, checksum field included, gives 0 exactly if the field holds the checksum of the rest, or 0xffff where that is 0 |
| Pool.Sanity | lwip/src/core/memp.c:100-116 | on any next fields whatever it stops, and says whether the list ends |
| Pool.WalksMeet | lwip/src/core/memp.c:100-116 | on a list that does not end the slow and the fast pointer meet |
| Pool.RepeatNeverEnds | lwip/src/core/memp.c:109-111 | if they meet, the list does not end |
| Pool.PushTwice | lwip/src/core/memp.c:433-438 | freeing a free element closes the list to a circle |
| Pool.Memp.constructor | lwip/src/core/memp.c:229-262 | all elements are on the free list, once |
| Pool.Memp.Malloc | lwip/src/core/memp.c:290-348 | the head of the list, or NULL exactly if all elements are in use; each element is in use or on the list once |
| Pool.Memp.Free | lwip/src/core/memp.c:406-443 | the element goes to the head of the list, and the check fails exactly if it was free already |
| Arp.Cache.constructor | client-switch-lan-play/arp.c:154-157 | the empty cache |
| Arp.Cache.GetMac | client-switch-lan-play/arp.c:176-197 | for addresses other than 0.0.0.0, just what the map of last stored addresses says |
| Arp.Cache.HasIp | client-switch-lan-play/arp.c:159-174 | whether the map has an answer |
| Arp.Cache.SetMac | client-switch-lan-play/arp.c:199-218 | fails only if every slot is another address's whose last store is not outdated, so that an address with such a store is always renewed; otherwise the map gets the entry |
| Arp.RefusedMeans | client-switch-lan-play/arp.c:199-218 | the same of the list and the map |
| Arp.StoreTakenUp | client-switch-lan-play/arp.c:199-218 | after any stores in order of time, a store can be looked up at once unless as many stores as there are slots were made in the time to live before it |
| Arp.SetReflects | client-switch-lan-play/arp.c:199-218 | storing keeps the last entry of every address, while not outdated, in the first slot for it, though outdated copies remain |
| Arp.GetIsLookup | client-switch-lan-play/arp.c:176-197 | the first slot that answers has the last stored address |
| Arp.LookupIsLast | client-switch-lan-play/arp.c:159-218 | after any stores in order of time, a lookup of an address other than 0.0.0.0 finds the last one stored, exactly until its time is over |
| Arp.NoneIsLost | client-switch-lan-play/arp.c:199-218 | a store for another address takes the slot of an entry for 0.0.0.0 exactly if no earlier slot is unused, outdated or for that address; if it was the only such entry, it is lost exactly then |
| Arp.NoneLostAtOnce | client-switch-lan-play/arp.c:199-218 | in a new cache, what is stored for 0.0.0.0 is lost with the next store for another address |
| Sha1.MixIsF | client-switch-lan-play/sha1.c:46-50 | the macros compute the functions of section 4.1.1 of FIPS 180-4 |
| Sha1.SwapIsBigEndian | client-switch-lan-play/sha1.c:34-38 | the word as loaded becomes the word of the message |
| Sha1.BlkIsW | client-switch-lan-play/sha1.c:42-43 | the circle of 16 words yields the 80-word schedule |
| Sha1.RoleRound | client-switch-lan-play/sha1.c:46-50 | a macro with the variables in any roles is one round |
| Sha1.Transform | client-switch-lan-play/sha1.c:55-111 | the compression of section 6.1.2 of FIPS 180-4 |
| Sha1.CountsAdd | client-switch-lan-play/sha1.c:135-138 | the two halves of the count are the bit length modulo 2 to the 64, carry included |
| Sha1.GuardExact | client-switch-lan-play/sha1.c:140-149 | the test for a full block is right, and the last copy ends within the 64 bytes of the buffer, exactly if the sum stays within 32 bits; otherwise all the data is copied to its place in the buffer, past the end |
| Sha1.HashSplit | client-switch-lan-play/sha1.c:130-150 | whole blocks may be hashed first |
| Sha1.Context.constructor | client-switch-lan-play/sha1.c:116-125 | the context of the empty message |
| Sha1.Context.Update | client-switch-lan-play/sha1.c:130-150 | the context of a message becomes that of the message with the data appended, however it is cut |
| Sha1.Context.Final | client-switch-lan-play/sha1.c:155-198 | the SHA-1 digest of the whole message, padded as in section 5.1.1 of FIPS 180-4; the context is wiped |
| Dns.EventKeeps | lwip/src/core/dns.c:923-1128 | every event keeps the table sound, and callbacks called and waiting are those before and the request submitted |
| Dns.CallFoundAccounts | lwip/src/core/dns.c:923-977 | calling a callback moves it from waiting to called |
| DnsRuns.CallbacksOnce | lwip/src/core/dns.c:923-1128 | in every run queries under way have different transaction ids, and the callbacks called together with those waiting are exactly the requests submitted |
| DnsRuns.TickedCounts | lwip/src/core/dns.c:1034-1066 | each tick is one less of a fixed number, and the last one ends the query |
| DnsRuns.TimesOut | lwip/src/core/dns.c:1010-1095 | in every run with no event for its entry, whatever happens to others between the ticks, a query is under way for exactly that many ticks, and then its callback was called and its entry is free |
| DnsRuns.NewQueryTicks | lwip/src/core/dns.c:1019-1033 | for a new query that is seven ticks for each configured server; without a server it ends at once |
| DnsRuns.FallbackStep | lwip/src/core/dns.c:1274-1296 | a reply without an address leaves the query with one kind of address, which it keeps, and ends a query that has one kind |
| DnsRuns.EnqueueAsks | lwip/src/core/dns.c:1408-1445 | a request is asked for at once, as wanted and under its id, or without a server its callback is called |
| DnsRuns.FailureEnds | lwip/src/core/dns.c:1211-1296 | an error reply, or one without an address when there is no other kind to ask for, ends the query with its callback |
| DnsRuns.AnswerServed | lwip/src/core/dns.c:1010-1128 | in every run with no other event for its entry, an answer calls the callback, and its address is held for its bounded time to live in ticks, and then the entry is free |
| DnsRuns.FallbackAsks | lwip/src/core/dns.c:1274-1289 | a query for IPv4 and then IPv6 asks for IPv6 after a reply without an address, and the other way round, from the first server on |
| DnsRuns.FallbackOnce | lwip/src/core/dns.c:1274-1296 | in every run in which its entry is not given to another request, a query restarts for the other kind of address at most once |
| DnsTable.Resolver.constructor | lwip/src/core/dns.c:317-354 | the empty table |
| DnsTable.Resolver.CreateTxid | lwip/src/core/dns.c:980-999 | the search ends, with an id no query under way has |
| DnsTable.Resolver.Found | lwip/src/core/dns.c:923-977 | the callback is called if there is one, and no longer waits |
| DnsTable.Resolver.Send | lwip/src/core/dns.c:735-761 | without a server the query ends with its callback |
| DnsTable.Resolver.CheckEntry | lwip/src/core/dns.c:1010-1082 | starting, waiting, asking again, the next server, timing out and expiring, as in the model |
| DnsTable.Resolver.Timer | lwip/src/core/dns.c:1087-1095 | the tick of the runs |
| DnsTable.Resolver.CorrectResponse | lwip/src/core/dns.c:1100-1128 | the answer of the runs: a bounded time to live, or none and the entry is free |
| DnsTable.Resolver.FindQuery | lwip/src/core/dns.c:1159-1162 | the one query under way with an id, or none |
| DnsTable.Resolver.Receive | lwip/src/core/dns.c:1133-1305 | a message is the event of the one query with its id, and nothing if there is none |
| DnsTable.Resolver.FindEntry | lwip/src/core/dns.c:1356-1386 | the first unused entry, else a completed one of the greatest age, else none |
| DnsTable.Resolver.Enqueue | lwip/src/core/dns.c:1316-1445 | refused exactly if no entry is unused and all completed ones are a multiple of 256 requests old; otherwise the event of the runs |
| DnsTable.CompletedButRefused | lwip/src/core/dns.c:1356-1386 | a sound table with a completed entry that refuses a request |
| Base64.ValueOfSymbol | client-switch-lan-play/rpc/base64.hpp:24-32 | a symbol's value is found again |
| Base64.EncodedLength | client-switch-lan-play/rpc/base64.hpp:34-74 | four symbols for each three bytes begun |
| Base64.SymbolsInOrder | client-switch-lan-play/rpc/base64.hpp:24-27 | the symbols are those of table 1 of RFC 4648 |
| Base64.QuadIsNumber | client-switch-lan-play/rpc/base64.hpp:43-48 | the four values are the base-64 digits of the number three bytes make up |
| Base64.EncodedForm | client-switch-lan-play/rpc/base64.hpp:55-70 | padding is just what fills up the last four symbols |
| Base64.RoundTrip | client-switch-lan-play/rpc/base64.hpp:34-111 | decoding an encoded byte string gives it back, in all three tail cases |
| Base64.EncodeBytes | client-switch-lan-play/rpc/base64.hpp:34-74 | the encoding of section 4 of RFC 4648 |
| Base64.DecodeString | client-switch-lan-play/rpc/base64.hpp:76-111 | on every string, the bytes of the symbols before the first other character, whatever stale values the array holds |

## Left out

- UvTcp.Client.Write: requests of 4 GiB and more, whose `total_len` wraps around, are not modelled.
- RelayRuns.FeedRepresents: two transmissions that are incomplete at the same time under the same source and 16-bit id mix in one slot; such runs are not described.
- PbufRuns.RunsAreSound: chaining past the 16 bits of `tot_len` or `ref`, and shortening a packet to more bytes than it has, which the code asserts against, are not described.
- Relay.Sender.Send: payload sizes below the 500 bytes the options demand are not modelled.
- Reassembly.Receiver.ProcessFrag: malformed fragments and packets beyond the slot's buffer are not modelled; the counter, an `int`, does not overflow, while its 16-bit copy in a slot wraps around as in the code.
- Sha1.Context.Update: data that makes the 32-bit test wrap around is excluded; see Sha1.GuardExact.
- DnsTable.Resolver.Receive: parsing of messages, name comparison and the check of the sender's address are a parameter, as is the address found.
- Failures of `tcp_write` other than `ERR_MEM` and failures of `tcp_output`, which close the connection inside the loop.
- pbufs outside the pool (`PBUF_RAM`, `PBUF_ROM`, `PBUF_REF`, custom), which differ in where the memory comes from; `pbuf_header`, `pbuf_coalesce`, `pbuf_split_64k` and the payload's room for headers.
- The heap's variants on libc and on pools, overflow and sanity regions, statistics, and freeing from interrupt context.
- `lwip_select`'s copying of the result sets, time-outs measured in time, and sockets closed during a select.
- DNS with random source ports or merged requests, local host lists and multicast queries.
- ARP packets themselves, and the request sent on a miss.
- The big-endian variant of SHA-1 and the big-endian variants of the checksum.
- pcap, libuv, proxies, the gateway, RPC servers and the WebSocket decoder.
- The TCP, IP and netif layers of lwIP, and its timers.
