# A verified model of RTAI's data structures and protocols

RTAI is a hard real-time layer for Linux.  This Dafny project models the parts of it that are algorithms rather than
hardware plumbing, and proves what they promise.  `dafny verify dfyconfig.toml` checks everything.

* **TLSF heap** (`Words`, `TlsfClasses`, `TlsfHeap`, `TlsfLaws`, `Tlsf`).  `Words` has machine words and their bit
  operators as natural numbers.  `TlsfClasses` proves the bit arithmetic of the size classes against a plain walk over
  class intervals.  `TlsfHeap` is the allocator without pointers, a chain of blocks and one list a class; `TlsfLaws` has
  its laws, for single operations and for whole runs.  `Tlsf` is the pointer code, with boundary tags, doubly linked lists,
  matrix and two bitmap levels, refining it.
* **Page heap** (`BsdExtent`, `BsdBooks`, `BsdHeap`).  One extent with its page map and threaded free list; the books of
  carved blocks, in use or in buckets; and the allocator over several extents.
* **Priority inheritance** (`PrioInherit`).  The chain walks of `pass_prio` and `rt_change_prio` on arbitrary wait
  graphs.  The walk ends on cyclic graphs because each round takes a task out of those less urgent than the priority passed.
* **Scheduler lists** (`Sched`, `Rms`).  Ready and timed lists, the timed list as a tree, rotation, waking up, the next
  timer shot, and rate monotonic priorities.
* **Registry** (`Registry`).  Two interleaved open-addressing tables in one array refine a map from names to records.
* **FIFOs and mailboxes** (`Ring`, `FifoProtocol`, `FifoTurns`, `FifoProgress`).  The ring buffer against a sequence of
  bytes, and the blocking protocol as atomic steps of any number of tasks: what every run keeps, what each finished call has
  moved, and that runs without new calls end.
* **Lock-free buffer** (`Scb`).  One writer and one reader, byte by byte, with outdated copies of each other's index.  The
  order in which a copy touches its bytes is left open.
* **Remainder** (`Fmod`).  The shift-subtract `fmod` on binary64 patterns (section 3.4 of IEEE 754-2008), as section 7.12.10.1
  and section F.9.7.1 of ISO C99 require it.
* **Name codec** (`Names`).  Base-40 names, which are the registry's keys.

## Where the code and its promise part

Each of these is proved as an exact condition, with a lemma for a concrete case.

* `mbx_sem_wait` marks the caller as sleeping only after it restored the interrupt flags.  A wake-up that the service request
  handler delivers in between is dropped, and the task then owns the semaphore without ever using it
  (`FifoProtocol.WakeUpCanBeLost`, `FifoProtocol.AllArriveIffTimely`).  `mbx_wait` marks it inside the critical section and
  loses nothing.
* The documented range of `num2nam` ends one too high: 4096000002 needs a seventh digit and comes back as 2, and 2 has an
  empty name (`Names.NumberRoundTrip`, `Names.EdgeNumbersLost`).  Names that begin with the digit zero lose their zeros
  (`Names.NameRoundTrip`).
* The area that `init_memory_pool` lays out overruns the pool by the last header word when the pool size modulo 16 is 8 or
  more (`Tlsf.AreaInsidePool`); the smallest pool that is accepted, of 6408 bytes, is such a one (`Tlsf.SmallestPoolOverruns`).
* A request of more than 0x3F000000 bytes makes the size-class search start behind the last row of the matrix
  (`TlsfClasses.RequestBoundIsExact`, `TlsfClasses.RequestBehindMatrix`).
* A deadline task that yields goes behind everything of priority 0, later deadlines included (`Sched.YieldRankedIff`,
  `Sched.YieldCanUnrank`); so does one that a mailbox signal makes ready (`Sched.EdfByPriorityIff`,
  `Sched.EdfByPriorityCanUnrank`).
* `rt_change_prio` never moves the front task of a wait queue back, however much less urgent it becomes
  (`PrioInherit.LoweredQueueIff`, `PrioInherit.LoweredStaysInFront`).
* The description of `rtheap_init` allows page sizes from 8 to 32768 bytes and heaps below 16 Mbytes (src/malloc/malloc.c:883-884,
  898); its code checks for 16 to 2^22 and for at most 0x7FFFFFFF bytes, and that is what `BsdHeap.RtheapInit` states
  (`BsdHeap.OtherThanDescribed`).

## Modelling choices

* Addresses and byte counts of the TLSF heap are integers, for an eight-byte machine word; the statistics are unbounded.
  Requests up to 0x3F000000 bytes and pools up to 2^30 bytes are covered; `TlsfClasses.RequestBoundIsExact` shows that the
  request bound is where the class index leaves its matrix.
* Lists that the kernel threads through task structures are sequences in `Sched`, closed by the Linux task, and maps from
  task numbers in `PrioInherit`.  Small pieces of a source function that need a contract of their own are methods of their own.
* The locked re-check loops of the registry repeat a probe only when another processor changed the slot in between; run alone
  they are entered once, and that is what the methods do.
* `init_extent` marks the pages of an extent free but does not write the map entry behind the last page
  (src/malloc/malloc.c:827-849), which `rtheap_free` looks at when a run ends there (src/malloc/malloc.c:1309-1311).
  `BsdExtent` takes that guard entry to be free, as it is in an area that begins zeroed.
* The ring of pending wake-ups has 64 entries for all FIFOs together (src/ipc/fifos/fifos.c:227-231) and can hold 63: with 64
  pending it would look empty.  The protocol model is that of one FIFO, with an unbounded ring.  One FIFO has at most two
  wake-ups pending (`FifoProtocol.RequestsFit`), so up to 31 of them never overflow the ring (`FifoProtocol.SharedRingFits`);
  beyond that, and for the user's own semaphores and for closing FIFOs, which use the ring too, it is an assumption.
* Names are strings of ASCII characters other than NUL.  In a kernel build `islower` also accepts letters of Latin-1, for which
  the code computes a negative digit (include/rtai_nam2num.h:83-84).
* A sender that blocks leaves the ready list after its priority was passed on (src/ipc/msg/msg.c:163-164);
  `PrioInherit.Block` takes it out before.
* Callers of `hash_ins_name` look the name up first, as `rt_register` does; its contract asks for no more than that a live
  name's probe meets no tombstone.

## Model

| member | source | states |
|---|---|---|
| Words.MsBitBrackets | src/malloc/malloc.c:475-482 | `ms_bit` is the place of the highest set digit of every non-zero word: two to that power brackets the word |
| Words.LsBitFirst | src/malloc/malloc.c:466-473 | `ls_bit` is the place of the lowest set digit of every non-zero word |
| Words.SetBitDigits | src/malloc/malloc.c:484-487 | setting a bit changes that digit of the word and no other |
| Words.ClearBitDigits | src/malloc/malloc.c:489-492 | clearing a bit changes that digit of the word and no other |
| TlsfClasses.InsertComputesClass | src/malloc/malloc.c:514-525 | the shifts and table look-ups of MAPPING_INSERT name the size class found by walking the class intervals upwards, inside the 24 by 32 matrix |
| TlsfClasses.SearchComputesRequest | src/malloc/malloc.c:494-512 | MAPPING_SEARCH names the first class all of whose sizes are large enough and rounds the request to the lower bound of that class |
| TlsfClasses.RequestBounds | src/malloc/malloc.c:494-512 | rounding adds less than 16 bytes for alignment and then less than one part in 32 |
| TlsfClasses.ClassFits | src/malloc/malloc.c:494-525 | every block of the starting class or a later one fits the request, and no block of an earlier class has the rounded size |
| TlsfClasses.RequestBoundIsExact | src/malloc/malloc.c:494-512 | the first-level index stays inside the matrix exactly for requests within the bound |
| TlsfClasses.RequestBehindMatrix | src/malloc/malloc.c:494-512 | a request of one byte more than the bound indexes behind the last row |
| TlsfLaws.GoodFit | src/malloc/malloc.c:527-543 | for every good heap and request: NULL exactly when every free block is smaller than the rounded request; otherwise a block that was free is handed out, at least the rounded size and at most 16 bytes more |
| TlsfLaws.MallocTakes | src/malloc/malloc.c:678-737 | a grant takes the head of the first list that is not empty from the class of the request on, whole when less than a header and the smallest block would be left and otherwise cut to exactly the rounded request; the rest becomes the head of its list |
| TlsfLaws.FreeFiles | src/malloc/malloc.c:740-775 | a released block and its free neighbours become one block at the head of its list; the neighbours leave their lists and the others there keep their order |
| TlsfLaws.MallocGood | src/malloc/malloc.c:678-737 | a grant, split or whole, keeps the blocks tiling the area, no two free neighbours, and each free block on exactly the list of its class |
| TlsfLaws.FreeGood | src/malloc/malloc.c:740-775 | a release, with either or both neighbours absorbed, keeps the same |
| TlsfLaws.FreeUndoesMalloc | src/malloc/malloc.c:678-775 | releasing a block right after its grant gives back the block chain, the contents and order of every list, and the statistic |
| TlsfLaws.PayloadsDisjoint | src/malloc/malloc.c:678-737 | payloads held at the same time never overlap |
| TlsfLaws.MallocHolds | src/malloc/malloc.c:678-737 | a grant adds one held payload, which was not held before, and changes no other |
| TlsfLaws.FreeHolds | src/malloc/malloc.c:740-775 | a release removes the released payload from those held and changes no other |
| TlsfLaws.MallocConserves | src/malloc/malloc.c:281-291 | used bytes plus free blocks with their headers is the same after a grant |
| TlsfLaws.FreeConserves | src/malloc/malloc.c:281-291 | used bytes plus free blocks with their headers is the same after a release |
| TlsfLaws.RunLaws | src/malloc/malloc.c:678-775 | every run of grants and releases keeps the heap good, its two ends in place and its bytes conserved |
| TlsfLaws.ReleasedRunRestores | src/malloc/malloc.c:740-775 | a run after which nothing is held, in whatever order it was released, ends in the freshly initialised heap |
| Tlsf.RowSearch | src/malloc/malloc.c:527-543 | masking a second-level word finds the first non-empty list of the row at or after the starting column |
| Tlsf.ColumnSearch | src/malloc/malloc.c:527-543 | masking the first-level word finds the first later row with a non-empty list |
| Tlsf.BitmapsDetermined | src/malloc/malloc.c:484-492 | the bitmaps are determined by the lists, so that an operation that restores the lists restores every bitmap word |
| Tlsf.Pool.FindSuitableBlock | src/malloc/malloc.c:527-543 | the two-level search returns the head of the first non-empty list at or after the starting class, or NULL when there is none |
| Tlsf.Pool.ExtractBlockHdr | src/malloc/malloc.c:546-557 | the head of a list leaves it; links, matrix and both bitmap levels agree with the lists again |
| Tlsf.Pool.ExtractBlock | src/malloc/malloc.c:559-573 | a block leaves its list wherever it stands; links, matrix and both bitmap levels agree with the lists again |
| Tlsf.Pool.InsertBlock | src/malloc/malloc.c:575-583 | a block becomes the head of its list; links, matrix and both bitmap levels agree with the lists again |
| Tlsf.Pool.MallocEx | src/malloc/malloc.c:678-737 | the pointer code refines the grant on the abstract heap: same result, chain, lists and statistic; boundary tags and back pointers name the true physical predecessors |
| Tlsf.Pool.FreeEx | src/malloc/malloc.c:740-775 | the pointer code refines the release on the abstract heap, through all four cases of free neighbours; NULL changes nothing |
| Tlsf.Pool.ProcessArea | src/malloc/malloc.c:604-622 | the area is laid out as header block, one block over the rest, and a sentinel of size zero whose tag says that the block before it is free |
| Tlsf.Pool.InitMemoryPool | src/malloc/malloc.c:629-676 | an unfit pool is rejected; otherwise the pool is a valid heap in its fresh state |
| Tlsf.InitialHeap | src/malloc/malloc.c:663-666 | releasing the one block of the initial chain gives the fresh heap |
| Tlsf.AreaInsidePool | src/malloc/malloc.c:604-622 | the area laid out ends inside the pool exactly when the pool size modulo 16 is below 8 |
| Tlsf.SmallestPoolOverruns | src/malloc/malloc.c:604-622 | in the smallest pool that is accepted the area is 8 bytes too long |
| Tlsf.Pool.MallocThenFree | src/malloc/malloc.c:678-775 | a grant and its release leave lists, statistic, list heads and every word of both bitmap levels as they were |
| Tlsf.TagsMerged | src/malloc/malloc.c:751-774 | merging keeps every block's state bit, its predecessor's state bit and the back pointer right |
| Tlsf.TagsGranted | src/malloc/malloc.c:714-732 | splitting or granting whole keeps every block's state bit, its predecessor's state bit and the back pointer right |
| BsdExtent.ShortStretch | src/malloc/malloc.c:1046-1078 | a stretch of contiguous free pages that is too short and not continued contains no beginning of a long enough run |
| BsdExtent.FirstRun | src/malloc/malloc.c:1046-1078 | the first run met on the address-sorted list is the first run of the extent |
| BsdExtent.TakenListed | src/malloc/malloc.c:1069-1072 | after pages were taken a page is on the free list exactly when its map entry says free |
| BsdExtent.GivenListed | src/malloc/malloc.c:1315-1340 | after pages came back a page is on the free list exactly when its map entry says free, and the list is in address order |
| BsdExtent.Extent.constructor | src/malloc/malloc.c:827-849 | a new extent has every page free and on the list, in address order |
| BsdExtent.Extent.TakeRange | src/malloc/malloc.c:1046-1124 | first fit by address: it fails only when no long enough run of free pages exists, and otherwise marks the run's head and continuation pages and nothing else |
| BsdExtent.Extent.GiveRange | src/malloc/malloc.c:1315-1340 | the pages are free again and the list stays in address order; no other map entry changes |
| BsdBooks.BlocksDisjoint | src/malloc/malloc.c:1164-1240 | two blocks that the page maps carve out never share a byte |
| BsdBooks.PageCovered | src/malloc/malloc.c:1108-1122 | every page that is not free lies in exactly one run, of a page block or of a page split into bucket blocks |
| BsdBooks.CarveMapOk | src/malloc/malloc.c:1108-1122 | marking a run keeps the page map well formed and changes the length of no other block |
| BsdBooks.UncarveMapOk | src/malloc/malloc.c:1305-1325 | freeing a block's pages keeps the page map well formed and changes the length of no other block |
| BsdBooks.PopOk | src/malloc/malloc.c:1208-1219 | taking a block from its bucket keeps every carved block either in use with its size on record or once in the bucket of its size |
| BsdBooks.PushOk | src/malloc/malloc.c:1344-1357 | returning a block to its bucket keeps the same |
| BsdBooks.SplitOk | src/malloc/malloc.c:1093-1122 | splitting fresh pages into the blocks of an empty bucket keeps the same |
| BsdBooks.GrantOk | src/malloc/malloc.c:1221-1233 | handing out pages directly keeps the same |
| BsdBooks.ReleaseOk | src/malloc/malloc.c:1305-1342 | giving pages back keeps the same |
| Sums.TotalWithout | src/malloc/malloc.c:1360 | removing a block from those in use lowers their total size by exactly its size |
| BsdHeap.GrantedFits | src/malloc/malloc.c:1174-1204 | the block size chosen holds the request; page requests waste less than a page, and bucket sizes stay within the buckets there are |
| BsdHeap.GrantedLeast | src/malloc/malloc.c:1174-1204 | up to two pages a request gets the smallest power of two from 16 bytes up that holds it, which is 16 or less than twice the request; beyond that the smallest number of pages that holds it |
| BsdHeap.Heap.GetFreeRange | src/malloc/malloc.c:1033-1125 | the pages come from the first extent that has a long enough run, and are the first run there; failure means that no extent has one |
| BsdHeap.Heap.SplitPage | src/malloc/malloc.c:1093-1106 | the chain built holds exactly the blocks of the page, each once, in address order |
| BsdHeap.Heap.RtheapAlloc | src/malloc/malloc.c:1164-1240 | a fresh block of the granted size comes into use and `ubytes` is the total in use: the head of its bucket, or the first block of the first run of pages, whose other blocks then fill the empty bucket, or that run itself; NULL means size 0, a request beyond an extent, or an empty bucket and no run of pages in any extent |
| BsdHeap.Heap.RtheapFree | src/malloc/malloc.c:1264-1365 | a block in use goes out of use and `ubytes` is the total in use: it becomes the head of its bucket, or its pages and no others become free; an address where no block begins is refused and nothing changes |
| BsdHeap.PowerTest | src/malloc/malloc.c:928-935 | the test `x & (x - 1)` accepts exactly the powers of two |
| BsdHeap.HeaderTight | src/malloc/malloc.c:937-944 | the header is its static part and a byte for each page, rounded up to 16 bytes |
| BsdHeap.HeaderHoldsMap | src/malloc/malloc.c:937-952 | the header has room for a map entry for every page and one guard entry |
| BsdHeap.RtheapInit | src/malloc/malloc.c:911-1001 | success exactly for the parameters that the constraints listed in the code (src/malloc/malloc.c:917-927) and the room for two pages allow; the heap then has no block in use and every page free |
| BsdHeap.OtherThanDescribed | src/malloc/malloc.c:911-944 | pages of 8 bytes are refused, and a heap of 32 Mbytes with pages of 64 Kbytes is accepted, both against the description |
| PrioInherit.WalkKeepsInheritance | include/rtai_schedcore.h:436-484 | inheritance holds after the walk over an arbitrary wait graph, and the first owner is at least as urgent as the passed priority, although the walk stops early |
| PrioInherit.WalkOnlyRaises | include/rtai_schedcore.h:436-484 | no task becomes less urgent, and none more urgent than the passed priority unless it was |
| PrioInherit.WalkBoostsChain | include/rtai_schedcore.h:445-478 | every task on the blocking chain ends with the more urgent of its own priority and the passed one, and no other task changes |
| PrioInherit.EarlyStop | include/rtai_schedcore.h:464-474 | where the walk stops, the rest of the chain is urgent enough already |
| PrioInherit.WalkKeepsReady | include/rtai_schedcore.h:447-461 | the walk keeps the ready list sorted |
| PrioInherit.BlockThenPass | src/ipc/msg/msg.c:160-163 | from inheritance, queueing a sender at a busy receiver and then passing its priority on gives inheritance again |
| PrioInherit.PassThenBlock | src/ipc/sem/sem.c:539-546 | from inheritance, passing the priority to a semaphore's owner first and queueing the waiter then gives inheritance again |
| PrioInherit.BoostedBehindEquals | include/rtai_schedcore.h:445-478 | a task that the walk boosts ends, in its wait queue or the ready list, behind every task there that had the passed priority or a more urgent one before |
| PrioInherit.WalkKeepsAhead | include/rtai_schedcore.h:445-478 | whoever stands behind a task as urgent as the passed priority does not get past it |
| PrioInherit.BlockBehindEquals | include/rtai_schedcore.h:416-425 | a task that blocks stands behind every waiter of at most its priority number and before all others, and the waiters keep their order |
| PrioInherit.LoweredQueueIff | src/sched/api.c:238-247 | when a blocked task becomes less urgent its queue stays sorted exactly when it is not in front or the next one is not more urgent now |
| PrioInherit.LoweredStaysInFront | src/sched/api.c:238-247 | a waiter in front that falls behind the second stays in front |
| PrioInherit.ChangeKeepsReady | src/sched/api.c:219-234 | whichever way a priority changes, the ready list stays sorted |
| PrioInherit.WalkKeepsOrder | include/rtai_schedcore.h:445-478 | tasks that the walk does not boost keep their order in every queue |
| PrioInherit.ChangeRaises | src/sched/api.c:219-254 | raising a task through `rt_change_prio` is the walk of `pass_prio` from that task: it boosts exactly the blocking chain and keeps inheritance |
| PrioInherit.Kernel.PassPrio | include/rtai_schedcore.h:436-484 | the in-place loop leaves exactly the state of the specified walk, and ends on cyclic wait graphs too |
| PrioInherit.Kernel.RtChangePrio | src/sched/api.c:202-262 | the in-place loop leaves exactly the state of the specified walk and returns the old base priority |
| Registry.ProbeDecides | src/sched/api.c:1314-1347 | a probe that stops at an empty slot or at its key has decided whether the key is live, and where |
| Registry.FullCircle | src/sched/api.c:1281-1290 | a probe that came full circle proves its key absent, and an inserting one proves every slot live |
| Registry.InsertOk | src/sched/api.c:1298-1304 | filling the free slot that its probe reached keeps every live key reachable |
| Registry.RemoveOk | src/sched/api.c:1397-1410 | clearing a key, to a tombstone or back to an empty slot, never hides another key |
| Registry.EmptiedIff | src/sched/api.c:1397-1410 | a removed name or address leaves an empty slot exactly when the next slot is empty, and a tombstone otherwise |
| Registry.LinearProbing | src/sched/api.c:1229-1290 | a probe looks at the slots in order, round the table, from the remainder of its key on |
| Registry.LiveCounted | src/sched/api.c:1281-1290 | when every slot is live there are as many keys as slots |
| Registry.RoomForAdr | src/sched/api.c:1305-1307 | while a name finds a slot its address finds one too |
| Registry.EnterOk | src/sched/api.c:1298-1308 | entering a name and its address keeps both tables, the mutual links and the map they represent |
| Registry.RemovedOk | src/sched/api.c:1397-1410 | removing a name and its address keeps both tables, the mutual links and the map they represent |
| Registry.CountOk | src/sched/api.c:1292-1297 | changing a reference count changes one record of the map and nothing else |
| Registry.Registry.Probe | src/sched/api.c:1279-1290 | the shared loop passes over exactly the slots from the hash up to where it stops, and ends after a full circle |
| Registry.Registry.HashFindName | src/sched/api.c:1314-1347 | the address of a live name, or NULL; its count is raised by one if asked, and no other record changes |
| Registry.Registry.HashFindAdr | src/sched/api.c:1349-1379 | the name registered with an address, or 0; its count is raised by one if asked, and no other record changes |
| Registry.Registry.HashInsAdr | src/sched/api.c:1242-1272 | minus the slot of a live address, 0 when all slots are live, or the free slot that was filled and linked |
| Registry.Registry.HashInsName | src/sched/api.c:1274-1312 | a live name only has its count raised, a new one is entered with its address, and failure means that every slot is live |
| Registry.Registry.RtRegister | src/sched/api.c:1817-1823 | fails exactly when the name is live or every slot is; otherwise the map gains the name with count 1 |
| Registry.Registry.HashRemName | src/sched/api.c:1381-1419 | the name stays exactly when a decrement was asked for and more than one reference is left; its count is then one less, and no other record changes |
| Registry.Registry.HashRemAdr | src/sched/api.c:1421-1458 | the same by address, for the name registered with it |
| Ring.WriteBehind | src/ipc/fifos/fifos.c:429-457 | a chunk copied in at `lbyte` extends the contents at their end and disturbs none of them |
| Ring.ReadAhead | src/ipc/fifos/fifos.c:508-534 | a chunk at `fbyte` is the front of the contents, and the rest follows it |
| Ring.Ring.Put | src/ipc/mbx/mbx.c:121-149 | appends as much of the message as fits and returns how many bytes did not |
| Ring.Ring.Get | src/ipc/mbx/mbx.c:200-226 | returns the front of the contents and drops exactly that |
| Ring.Ring.Evdrp | src/ipc/fifos/fifos.c:536-560 | returns what a get would and changes nothing |
| Ring.Ring.OvrwrPut | src/ipc/mbx/mbx.c:151-198 | leaves the last bytes, as many as fit, of the old contents followed by the message |
| Ring.Ring.Resize | src/ipc/fifos/fifos.c:876-935 | refused for size 0 and exactly when the contents do not fit; they are kept in every case, also when they fill the new buffer to the last byte |
| FifoProtocol.Delivery | src/ipc/fifos/fifos.c:611-694 | in every run the received bytes are a prefix of the messages in send-semaphore order, each in one piece; what is missing is in the buffer; finished calls moved all their bytes |
| FifoProtocol.RunKeeps | src/ipc/fifos/fifos.c:256-370 | every run of steps of any number of senders and receivers keeps the control and data invariants |
| FifoProtocol.SlotNeverOverwritten | src/ipc/fifos/fifos.c:348-357 | the one waiting slot is empty whenever a task is about to put itself there |
| FifoProtocol.RecheckControl | src/ipc/fifos/fifos.c:361-369 | whoever comes back from the slot was signalled: waiting there never fails |
| FifoProtocol.OneCopier | src/ipc/fifos/fifos.c:431-457 | only the holder of a semaphore is between a copy and its commit |
| FifoProtocol.NoLostWakeUp | src/ipc/fifos/fifos.c:256-296 | a sleeper in the slot cannot move unless a signal or wake-up is on its way; a sleeper on a semaphore has someone before it or a wake-up on its way, unless that one was dropped |
| FifoProtocol.NoDeadlock | src/ipc/fifos/fifos.c:611-694 | unless a wake-up was dropped, callers get stuck only at a full FIFO without receiver or an empty one without sender |
| FifoProtocol.DroppedIffQueued | src/ipc/fifos/fifos.c:781-789 | the request handler drops a wake-up exactly when its task has not marked itself as sleeping yet |
| FifoProtocol.AllArriveIffTimely | src/ipc/fifos/fifos.c:319-331 | in every run all wake-ups arrive if and only if the handler never runs between a task's queueing and its marking |
| FifoProtocol.DroppedForever | src/ipc/fifos/fifos.c:319-331 | a task whose wake-up was dropped owns the semaphore and never gets to use it |
| FifoProtocol.WakeUpCanBeLost | src/ipc/fifos/fifos.c:325-328 | a run in which that happens: the state is set after the flags are restored |
| FifoProtocol.InsertPlace | src/ipc/fifos/fifos.c:236-247 | a waiter goes behind all waiters of at least its priority and before all others |
| FifoProtocol.RequestsFit | src/ipc/fifos/fifos.c:227-231 | a task with a wake-up pending holds one of the two semaphores and has only one pending, so a FIFO never has more than two |
| FifoProtocol.SharedRingFits | src/ipc/fifos/fifos.c:227-231 | the wake-ups of up to 31 FIFOs always fit the request ring that they share |
| FifoTurns.AllOrNothing | src/ipc/fifos/fifos.c:645-661 | in every run, a finished call for all or nothing moved all, one for some moved some, and every call moved all or at least what could move when its turn began |
| FifoTurns.RefusedIff | src/ipc/fifos/fifos.c:645-661 | a conditional call is refused exactly when the semaphore is taken or the room or bytes it needs are missing, and then changes nothing; other calls never are |
| FifoTurns.OnceNeverSleepsAgain | src/ipc/fifos/fifos.c:629-661 | in every run, a call that moves only what it can never sleeps if it is conditional, and otherwise only before it has moved anything |
| FifoTurns.ChunkIsMost | src/ipc/fifos/fifos.c:429-457 | a copy moves up to the end of the call, of what can move, or of the buffer |
| FifoTurns.MostUrgentNext | src/ipc/fifos/fifos.c:256-268 | in every run, a semaphore that is given up goes to the waiter in front, and no waiter has a higher priority |
| FifoProgress.StepCosts | src/ipc/fifos/fifos.c:256-370 | every step but a new call uses up budget, which counts the bytes left to move and how far each task is from its next byte, its sleep or its end |
| FifoProgress.CallFreeBounded | src/ipc/fifos/fifos.c:611-694 | no run without new calls is longer than the budget of the state it begins in, whatever the schedule |
| FifoProgress.AllComeThrough | src/ipc/fifos/fifos.c:611-694 | a run without new calls that cannot go on and dropped no wake-up has completed every call, save those of one direction that face a full FIFO or an empty one |
| FifoProgress.ComesToRest | src/ipc/fifos/fifos.c:256-370 | from every state without a dropped wake-up there is such a run |
| Scb.FitsMeans | include/rtai_scb.h:238-312 | the two tests on signed index differences mean: the bytes are there, and the bytes fit with one to spare |
| Scb.NeverTheSameByte | include/rtai_scb.h:238-312 | whatever outdated index each side has seen, writer and reader never touch the same byte |
| Scb.StepKeeps | include/rtai_scb.h:238-312 | every step of either side keeps what was got, followed by what is published, equal to what was put |
| Scb.GetsReturnPuts | include/rtai_scb.h:238-312 | in every byte-level interleaving the gets return exactly the bytes of the successful puts in order, and never more than the capacity is outstanding |
| Scb.PutDecides | include/rtai_scb.h:296-312 | in every interleaving, a put goes on if and only if its message fits beside what is outstanding when it is called; a refused one changes nothing |
| Scb.GetDecides | include/rtai_scb.h:238-254 | in every interleaving, a get goes on if and only if as many bytes as it asks for are outstanding when it is called; a refused one changes nothing |
| Scb.Scb.Put | include/rtai_scb.h:296-312 | all or nothing: the whole message is appended if it fits, or nothing changes |
| Scb.Scb.Get | include/rtai_scb.h:238-254 | all or nothing: the front of the contents is returned and dropped, or nothing changes |
| Scb.Scb.Evdrp | include/rtai_scb.h:268-283 | returns what a get would and changes nothing |
| Scb.Scb.AvbsNow | include/rtai_scb.h:181-185 | the number of bytes in the buffer |
| Fmod.PatternOrder | src/math/fmod.c:18-22 | below the sign bit, finite patterns are ordered as their magnitudes are, across the subnormal boundary |
| Fmod.Normalize | src/math/fmod.c:25-38 | the significand with its leading bit in place and the exponent that goes with it represent the same magnitude, for normal and subnormal numbers |
| Fmod.Reduce | src/math/fmod.c:40-55 | the shift-subtract loop leaves the exact remainder at the divisor's exponent, or reports that there is none |
| Fmod.ExactShift | src/math/fmod.c:59-64 | the final shift of a subnormal result loses no bit |
| Fmod.Pack | src/math/fmod.c:56-66 | the packed pattern is finite and has the given sign and exactly the given magnitude |
| Fmod.Fmod | src/math/fmod.c:4-68 | exact remainder of the magnitudes in units of 2^-1074 with the sign of the dividend; not a number exactly for a zero or not-a-number divisor or a dividend that is not finite; the dividend itself for an infinite divisor |
| Sched.RankSplits | include/rtai_schedcore.h:217-272 | in a ranked ready list a task's place is behind all that may run before it, equals included, and before all others |
| Sched.EnqueuedRanked | include/rtai_schedcore.h:217-272 | enqueueing keeps deadline tasks by deadline before fixed-priority tasks by priority, so that the head is a most urgent task, and adds just the one task |
| Sched.Cpu.EnqReadyTask | include/rtai_schedcore.h:254-272 | the scan over priorities puts a task behind all of at most its priority number, which for a fixed-priority task is its place in the ranking |
| Sched.Cpu.EnqReadyEdfTask | include/rtai_schedcore.h:217-231 | the scan over deadlines puts a deadline task exactly there |
| Sched.Cpu.RenqReadyTask | include/rtai_schedcore.h:274-286 | a task whose priority changes is taken out and put where the new priority belongs |
| Sched.EnqueuedInTurn | include/rtai_schedcore.h:217-272 | in a ranked list a task is put behind everything that may run before it, equals included, and before everything else, and the others stay as they are |
| Sched.EnqueuedLike | include/rtai_schedcore.h:217-272 | first come first served: among tasks of one rank the new one comes last, and every other rank keeps its order |
| Sched.JoinedLike | include/rtai_schedcore.h:386-398 | among tasks of one rank, those that were ready stay in front and the woken ones follow in the order in which they wake |
| Sched.RaisedRanked | include/rtai_schedcore.h:447-461 | a fixed-priority task that inherits is where enqueueing it afresh would put it, whether its neighbours leave it in place or not; so the list stays ranked with deadline tasks in front |
| Sched.Cpu.RtTaskYield | src/sched/api.c:308-331 | the running task goes behind exactly the tasks of its priority; the list stays ranked unless a deadline task yields |
| Sched.YieldsRestore | src/sched/api.c:308-331 | among k tasks of equal priority k yields restore the order |
| Sched.YieldRankedIff | src/sched/sched.c:481-501 | a yield keeps the list ranked exactly when every task it goes behind may run before the one that yields; always so for fixed priorities |
| Sched.EdfByPriorityIff | src/ipc/mbx/mbx.c:48-62 | a deadline task that is made ready by priority keeps the list ranked exactly when every task of priority 0 is a deadline task due no later |
| Sched.EdfByPriorityCanUnrank | src/ipc/mbx/mbx.c:48-62 | a deadline task that is made ready by priority can get behind one with a later deadline |
| Sched.YieldCanUnrank | src/sched/api.c:308-331 | a deadline task that yields can be overtaken by one with a later deadline |
| Sched.Cpu.EnqTimedTask | include/rtai_schedcore.h:343-359 | a task is put before the first one that resumes at the same time or later |
| Sched.Cpu.EnqTimedTaskTree | include/rtai_schedcore.h:313-339 | the descent of the tree ends at the same place of the list, and the tree still holds the list in order |
| Sched.LinkedInOrder | include/rtai_schedcore.h:313-338 | for every tree holding a sorted list, linking a task where its search ends is inserting it where the linear scan does |
| Sched.ErasedInOrder | include/rtai_schedcore.h:340-341 | for every tree and place, erasing the node there takes its task out of the order and leaves the rest as it was |
| Sched.Cpu.RemTimedTask | include/rtai_schedcore.h:364-376 | one task leaves the timed list, and the tree keeps holding the list in order |
| Sched.DueExact | include/rtai_schedcore.h:378-412 | exactly the tasks due by now leave the timed list, and besides them at most the head when it is due within its latency; the rest stays sorted |
| Sched.JoinedRanked | include/rtai_schedcore.h:386-398 | the woken tasks that nothing else holds are all on the ready list afterwards, which stays ranked |
| Sched.Cpu.WakeUpTimedTasks | include/rtai_schedcore.h:378-412 | the loop takes exactly these tasks from the timed list and puts them on the ready list one by one; a tree that held the timed list still does |
| Sched.ShotInTime | src/sched/sched.c:738-756 | the shot is late for no timed task at least as urgent as the one chosen, and no later than it was |
| Sched.Cpu.SetNextTimerShot | src/sched/sched.c:738-756 | the interrupt time is that of the first sufficiently urgent task less its latency, or of the round-robin slice, and the shot is fired exactly when it changes so |
| Rms.PlacesFollowPeriods | src/sched/sched.c:994-1028 | rate monotonic priorities are distinct and ordered as the periods are, by list order among equal periods |
| Rms.PlaceCounts | src/sched/sched.c:994-1028 | a task's priority is the number of tasks with a period and no deadline that have a shorter period, or the same and come first |
| Rms.RtSpvRms | src/sched/sched.c:994-1028 | every eligible task gets as priority the number of tasks that come before it; the others are left alone |
| Rms.Shortest | src/sched/sched.c:1004-1013 | the inner search finds the unmarked task of shortest period, the first of several |
| Names.Nam2Num | include/rtai_nam2num.h:74-95 | the number of a name: the base-40 value of its first six characters plus 2, or the reserved value for an empty name |
| Names.Num2Nam | include/rtai_nam2num.h:107-130 | writes the base-40 digits without leading zeros and a closing zero character; one fixed name for all numbers out of range |
| Names.DigitIsPlace | include/rtai_nam2num.h:60-95 | a character's digit is its place among ten digits, 26 letters and four signs, and the character of a digit is the one in that place |
| Names.NextCharacter | include/rtai_nam2num.h:74-95 | each further character of the first six is one more base-40 digit, and the numbers begin at 2 |
| Names.NumberRoundTrip | include/rtai_nam2num.h:74-130 | a number comes back from its name exactly when it lies between 3 and 4096000001 |
| Names.EdgeNumbersLost | include/rtai_nam2num.h:74-130 | 2 has no name and comes back as the value reserved for that; 4096000002 comes back as 2 |
| Names.NameRoundTrip | include/rtai_nam2num.h:74-130 | a non-empty name comes back from its number, in canonical form, exactly when it does not begin with the digit zero |
| Names.SameNumberSameName | include/rtai_nam2num.h:74-95 | names that do not begin with zero share a number only if they have the same canonical form |
| Names.NeverAMark | src/sched/api.c:1229-1231 | no name has a number that the registry uses to mark a free slot |

## Left out

* Context switches, interrupt plumbing, user-space copies that fail, `/proc`, module entry and exit: no visible semantics here.
* Red-black rebalancing (in `rb_insert_color` and `rb_erase`): not part of this model; it is taken to keep the in-order contents.
* Semaphores and messages beyond what the inheritance walk reads: a resource is an owner and a wait queue.
* Soft (Linux-side) tasks, which enter the ready list at its head, and several processors' ready lists.
* What a lowered priority means for inheritance, beyond the order of queues, and the scan for the priority a task returns to.
* FIFO calls that end by a signal or a timeout, which set a semaphore free while its holder is inside, and overwriting puts
  or resizes beside other callers: their effect on a running protocol is not modelled.
* Asynchronous notification of FIFOs (`poll`, `fasync`) and FIFO handlers.
* `mbx.c` waits: the ring of a mailbox is that of `Ring`; its blocking calls use the real-time scheduler, which is not joined
  to the protocol here.  The user-space branch of `mbxevdrp` (src/ipc/mbx/mbx.c:244) reads at an index it does not advance.
* `rt_scb_init`, `rt_scb_frbs` and `rt_scb_ovrwr`.
* Names and addresses 0 and 1 as arguments of the registry, where they mark slots.
* Task-structure pointers and types of registry entries beyond an integer type, overflow of reference counts, and
  registering an address twice.
* Timed-list operations that change `resume_time` of a queued task without requeueing it.
* `rt_spv_RMS` changes priorities without requeueing ready tasks; nothing is claimed of the ready list afterwards.
* Heap extents obtained from Linux: the number of extents is given when a heap is made, and `rtheap_init` is modelled for
  a given area.
* TlsfClasses.RequestBoundIsExact: does not cover requests above 0x7FFFFFF0 bytes, which no `int` holds once they are rounded.
* Tlsf.Pool.MallocEx: does not cover requests above 0x3F000000 bytes, whose class lies outside the matrix.
* Tlsf.Pool.InitMemoryPool: does not cover pools larger than 2^30 bytes, whose one block could reach beyond the last class.
* BsdHeap.Heap.SplitPage: does not model the addresses stored in the blocks; the chain is a sequence.
* BsdHeap.RtheapInit: does not model a heap without an area of its own, whose extents come from Linux.
* PrioInherit.WalkKeepsReady: does not mention deadline tasks, which have priority 0 and are never raised; `Sched.RaisedRanked`
  states their place.
* PrioInherit.Kernel.RtChangePrio: does not cover soft tasks, nor priorities from that of Linux up.
* Registry.Registry.RtRegister: does not cover an address that is registered already.
* Ring.Ring.Resize: does not model the branch for a sender that waits in the middle of its message.
* FifoProtocol.RequestsFit: does not cover a FIFO that is being closed, which pends a wake-up for every queued caller.
* FifoProgress.AllComeThrough: does not cover runs that drop a wake-up, which `FifoProtocol.DroppedForever` describes.
* Sched.Cpu.WakeUpTimedTasks: does not model node colours and rotations when it erases nodes.
* Sched.ErasedInOrder: does not model node colours and rotations.
* Names.Nam2Num: does not cover characters beyond ASCII, whose digit may be negative in the code.
* Names.NameRoundTrip: does not cover characters beyond ASCII, for the same reason.
* Names.NumberRoundTrip: does not cover 0 and 1, like `Names.Num2Nam`.
* Sched.Cpu.EnqTimedTaskTree: does not model node colours and rotations; the tree is relinked at a leaf only.
* Sched.Cpu.RenqReadyTask: does not cover deadline tasks, whose priority 0 is never raised.
* BsdHeap.Heap.RtheapAlloc: does not model the words inside free blocks that thread a bucket; a bucket is a sequence.
* BsdHeap.Heap.RtheapFree: does not model an address outside every extent, nor one inside a page block or freed twice.
* Names.Num2Nam: does not cover 0 and 1, which no name has and for which the unsigned subtraction wraps around.
* Registry.Registry.HashInsName: does not cover an address that is registered already, nor a name entered twice because a
  tombstone precedes it.
* Scb.GetsReturnPuts: does not model weaker memory orders; each byte and each index is written once, in program order between
  a side's last byte and its index.
* FifoProtocol.Delivery: does not model copies that interleave byte by byte; a chunk is copied in one step and committed in
  another, and `Scb` covers the finer grain for its own buffer.
* Fmod.Fmod: does not tell apart the patterns of a result that is not a number.
