# Verified model of db2

db2 runs several database instances over shared storage. Each instance caches pages, a central
lock server records which instance owns a page, and an instance that wants to write a page has it
taken away from the previous owner. This project models that protocol and the storage, scheduling
and loading code around it, and proves what they promise. `dafny verify dfyconfig.toml` checks
everything.

## Modules

- `Bytes`, `Outcomes`: bytes, 64-bit little-endian words, writing into a buffer; results of calls.
- `LockTable`, `GlobalLock`: the per-page lock node of an instance and the directory of the lock server.
- `Ownership`, `OwnershipSafety`, `OwnershipExact`: the page-ownership protocol as a step system over
  any number of instances, threads and pages; what every interleaving keeps; exactly which calls
  break it; a discipline under which nothing can.
- `OwnershipCalls`: what a thread or the server can do next, and whole calls as runs of steps.
- `Lru`, `PoolSpec`, `BufferPool`: the linked list on the heap, the pool as a value, and the pool as
  a class over two such lists.
- `SplitBuffer`, `SplitBufferExact`: the pool with its lock held only around list changes, under every
  interleaving of any number of calls on any page; exactly which steps break it.
- `PageLayout`, `TableInit`, `RowSpec`, `RowStore`: pages and rows, loading a table, and ReadRow and
  WriteRow on top of pool and locks.
- `IndexSpec`, `KeyIndex`: the key index with its binary and its text file.
- `AbortBuffer`: the query loop of a worker thread.
- `Watermark`, `WatermarkExact`: timestamps and their minimum under every interleaving; exactly which
  steps make the minimum unsafe.
- `Arena`, `Permutation`: the bump allocator; the order permutation of the TPC-C loader.

## How the code is read

- A mutex region is one step and a condition wait is a guard. An assert that would fail stops the
  process; several asserts contain the update itself, so the build with asserts is the one modelled.
- GetWritePageLock sets the mode to P before it puts the granted page into the buffer, and registers
  its thread only after LockRemote has returned (instance/txn/ycsb_txn.cpp:108-142). A second instance
  can therefore take a page from an owner that has not finished installing it. The model keeps that
  order. `OwnershipExact.TwoOwners` is a concrete run in which two instances own one page,
  `OwnershipExact.HazardsAreExact` says exactly which calls are unsafe, and
  `OwnershipExact.DisciplinedRunsAreSafe` shows that registering before the request, waiting for
  uncounted readers and keeping lockers out until the page is in the buffer makes every run safe.
- LockInvalid waits for registered threads only. ReadRow does not register, so a reader inside makes the
  assert on count stop the process (common/lock_table/lock_table.cpp:188);
  `OwnershipCalls.HoldersNeverStop` says that on a node that describes its holders this is the only assert
  of Lock, UnLock and LockInvalid that can fail.
- The ready time of an aborted query is a 64-bit sum. `AbortBuffer.PenaltyIsKept` says that the penalty is
  kept exactly if that sum does not wrap around.
- The list class is called LRU, but its Get leaves the order alone (common/buffer/lru.cpp:95-147), so
  the pool evicts the oldest insertions, not the least recently used pages.
- GetMinTs compares a slot and then names it again to assign it (instance/manager_instance.cpp:136-137).
  The slot is plain memory that other threads write, so a build may read it twice or once; `Watermark`
  has both. A slot overwritten between two reads can push the result above a running transaction
  (`Watermark.SecondRead`), and so can a call made too early (`Watermark.EarlyCall`).
  `WatermarkExact.HazardsAreExact` says exactly when.
- The comment at common/buffer/buffer.h:36-37 lets BufferGet and BufferPut run in parallel under the page
  locks. Those locks admit several readers of one page at a time. Two that miss the page put it into
  two frames (`SplitBufferExact.TwoFrames`); `SplitBufferExact.HazardsAreExact` says exactly which steps
  are unsafe, and `SplitBuffer.WarmPoolLinearizes` that none is once the pages are loaded, as after the
  warm-up (instance/manager_instance.cpp:101-106).
- thread_t::get_next_ts takes two numbers and returns the second (instance/thread.cpp:277-280).

## Model

| member | source | states |
|---|---|---|
| Bytes.DecodeEncode | common/index/index.cpp:90-93 | a number that fits into n bytes survives being stored in n little-endian bytes |
| Bytes.LastByteWeighsMost | common/index/index.cpp:90-93 | numbers are little-endian: appending a byte c to n bytes adds c times 256 to the n |
| Bytes.WordRoundTrip | common/index/index.cpp:90-93 | a 64-bit number survives being stored in 8 bytes |
| Bytes.SpliceReads | common/storage/row_handler.cpp:153 | after a copy into a buffer the copied range reads as the data and every range apart from it is unchanged |
| LockTable.Table.constructor | common/lock_table/lock_table.cpp:14-38 | a node for every page of the range and no other, each in mode O with count 0, an empty thread set and no request in flight |
| LockTable.Table.Lock | common/lock_table/lock_table.cpp:74-116 | X waits unless the mode is P, stops if P has a count, and otherwise becomes the only holder; S waits while X, counts itself unless the mode is O, other modes stop; no other node changes |
| LockTable.Table.Unlock | common/lock_table/lock_table.cpp:119-144 | the last holder returns the node to P; under O or P nothing happens |
| LockTable.Table.Register | common/lock_table/lock_table.cpp:146-157 | the thread is in the set afterwards and nothing else is new there; thread_count grows by one exactly if it was not in before; mode, count and flag stay |
| LockTable.Table.Unregister | common/lock_table/lock_table.cpp:158-172 | the thread is out of the set afterwards and thread_count follows; in mode O the assert stops the process |
| LockTable.Table.Invalidate | common/lock_table/lock_table.cpp:175-199 | waits for an empty thread set, then mode O and the page handed out; the timed wait under the same mutex never reports a time-out |
| LockTable.UnLockUndoesLock | common/lock_table/lock_table.cpp:74-144 | UnLock undoes every Lock that was granted, in whatever mode it found the node, including readers let in under O |
| LockTable.GrantedExactly | common/lock_table/lock_table.cpp:74-116 | X is granted if and only if the mode is P with count 0 and waits if and only if it is not P; S waits if and only if it is X; a granted call sets its mode and adds one to the count, except that under O a reader passes and leaves the node unchanged |
| LockTable.ReleasedExactly | common/lock_table/lock_table.cpp:119-144 | UnLock never waits, takes one off the count, and sets P exactly when the last holder leaves; under O and P it does nothing |
| LockTable.RegisterBlocksInvalid | common/lock_table/lock_table.cpp:146-199 | registering adds exactly that thread, and from then on LockInvalid waits |
| LockTable.UnregisterLeaves | common/lock_table/lock_table.cpp:158-172 | leaving removes exactly that thread, never stops while thread_count is the size of the set, and undoes registering |
| LockTable.InvalidExactly | common/lock_table/lock_table.cpp:175-199 | LockInvalid waits if and only if a thread is registered, stops if and only if none is while somebody is inside, and otherwise changes the mode to O and nothing else |
| GlobalLock.GlobalLock.constructor | global_lock/global_lock.cpp:41-71 | every page of the server's disk is known and nobody owns it |
| GlobalLock.GlobalLock.LockRemote | global_lock/global_lock.cpp:83-105 | a recorded owner supplies page and return code, otherwise the server's own copy and RCOK, at most once per page; the requester is recorded whatever the owner answered; an unknown page stops |
| GlobalLock.GlobalLock.GetNextTs | global_lock/global_lock.cpp:107 | returns the counter and advances it |
| GlobalLock.AnswersAreSteps | global_lock/global_lock.cpp:83-105 | owner, return code and page of an answer are those of the protocol's answering steps: RCOK leads to the page being installed and nothing else does, a time-out takes the request back and clears the flag |
| GlobalLock.LockRemoteIsSteps | global_lock/global_lock.cpp:91-98 | a whole call on an owned page, from asking the owner to the answer with anything the instances do in between, has the effect of LockRemote with what the owner replied, a page or a time-out |
| OwnershipSafety.BaseKept | common/lock_table/lock_table.cpp:146-199 | every single step of every interleaving keeps: thread_count is the size of thread_set, no time-out is pending, a locked owner has nobody registered, the request being served is still waiting |
| OwnershipSafety.NoTimeoutEver | common/lock_table/lock_table.cpp:175-199 | in every interleaving, hazardous calls included, LockInvalid never times out, thread_count equals the size of thread_set, and the server's copy is served at most once |
| OwnershipSafety.PinnedStep | common/lock_table/lock_table.cpp:181-191 | no step takes a page from an instance on which a thread is registered |
| OwnershipSafety.RegisteredPagePinned | common/lock_table/lock_table.cpp:158-172 | a thread that registered while the page was owned finds it owned when it leaves, in every interleaving: RemoveThread's assert holds |
| OwnershipSafety.NodeCalls | common/lock_table/lock_table.cpp:74-144 | Lock and UnLock move the pair of mode and count exactly as they move the sets of writers and readers |
| OwnershipSafety.InsideSeesLatest | common/storage/row_handler.cpp:105-159 | a thread inside as writer or counted reader finds the latest page in its instance's buffer |
| OwnershipSafety.WriteKept | common/storage/row_handler.cpp:136-159 | a WriteRow makes its own result the latest page and leaves every other thread's claim about the page intact |
| OwnershipSafety.InvalidKept | common/lock_table/lock_table.cpp:175-199 | a non-hazardous LockInvalid hands over the latest page and keeps the protocol invariant |
| OwnershipSafety.InvKept | global_lock/global_lock.cpp:83-105 | every non-hazardous step of any thread, instance or the server keeps the protocol invariant |
| OwnershipSafety.CleanRunsAreSafe | global_lock/global_lock.cpp:83-105 | in every run without hazardous calls only the recorded owner has the page in a mode other than O, the latest page is in its buffer, in the reply to it, or at the server while nobody owns it, every WriteRow and counted ReadRow works on it, and mode and count describe the holders: X one writer, S only readers and their number, O and P nobody counted |
| OwnershipExact.InvalidBeforeSetMode | instance/txn/ycsb_txn.cpp:108-142 | an invalidation between LockRemote's answer and setting the mode leads to two owners |
| OwnershipExact.InvalidBeforePutPage | instance/txn/ycsb_txn.cpp:116-120 | an invalidation between setting the mode and putting the page hands over an old page |
| OwnershipExact.WriterBeforePutPage | instance/txn/ycsb_txn.cpp:116-120 | a writer let in between setting the mode and putting the page loses its row |
| OwnershipExact.ReaderBeforePutPage | instance/txn/ycsb_txn.cpp:116-120 | a counted reader let in between setting the mode and putting the page returns an old page |
| OwnershipExact.UncountedUnlock | common/lock_table/lock_table.cpp:103-134 | a reader admitted under O that unlocks under S or X gives up somebody else's hold |
| OwnershipExact.HazardsAreExact | instance/txn/ycsb_txn.cpp:79-147 | after any run without hazardous calls, the next step leaves all hazard-free continuations safe if and only if it is not hazardous |
| OwnershipExact.TwoOwners | instance/txn/ycsb_txn.cpp:108-142 | a concrete run of two instances that ends with both in mode P |
| OwnershipExact.DisciplinedRunsAreSafe | common/lock_table/lock_table.cpp:158-172 | if threads register before LockRemote, the mode is set only when no uncounted reader is inside, and nobody locks before the page is put, every run is free of hazards and safe |
| OwnershipExact.PageProjection | common/lock_table/lock_table.cpp:14-38 | what one page goes through in a run over many pages is a run of the one-page protocol, clean or disciplined if the whole run is |
| OwnershipExact.ClusterIsSafe | global_lock/global_lock.cpp:83-105 | the safety result for every page of a run over any number of pages without hazardous calls |
| OwnershipExact.DisciplinedClusterIsSafe | common/lock_table/lock_table.cpp:158-172 | if every instance keeps to the discipline, every run over any number of pages is safe |
| OwnershipCalls.HoldersNeverStop | common/lock_table/lock_table.cpp:74-199 | on a node whose mode and count describe its holders neither Lock nor UnLock stops, and LockInvalid stops if and only if nobody is registered and somebody is inside |
| OwnershipCalls.CallsGoOn | instance/txn/ycsb_txn.cpp:79-147 | after any run without hazardous calls a thread inside a call can take its next step, other than waiting for LockRemote, and a new call waits exactly for the modes in which Lock waits |
| OwnershipCalls.ServerGoesOn | global_lock/global_lock.cpp:83-105 | after any run without hazardous calls a request is served as soon as the entry is free, LockInvalid waits exactly while threads are registered at the owner and stops exactly on a holder inside, and a page given up is granted |
| OwnershipCalls.StepsLead | common/storage/row_handler.cpp:105-159 | steps of one thread one after the other change its instance, the log of writes and nothing else |
| OwnershipCalls.WriteRowCall | common/storage/row_handler.cpp:136-159 | a whole WriteRow on a free page puts the row into the buffer and leaves lock and threads as they were |
| OwnershipCalls.ReadRowCall | common/storage/row_handler.cpp:105-129 | a whole ReadRow under O, P or S copies the buffer and leaves the instance as it was |
| OwnershipCalls.RequestCall | instance/txn/ycsb_txn.cpp:97-102 | of the threads that see O only the one that sets the flag asks the server |
| OwnershipCalls.HandOverCall | instance/txn/ycsb_txn.cpp:97-121 | a whole GetWritePageLock on a page another instance has, with nobody registered or inside there, moves that instance's buffer into the caller's, records the caller as owner with mode P and leaves the other with O, and changes nothing else |
| OwnershipCalls.FirstGrantCall | instance/txn/ycsb_txn.cpp:97-121 | a whole GetWritePageLock on a page nobody owns installs the server's copy |
| Lru.LRU.Prepend | common/buffer/lru.cpp:84-91 | the node becomes the first of the sequence the links spell |
| Lru.LRU.Get | common/buffer/lru.cpp:95-147 | a hit changes neither links nor order |
| Lru.LRU.Popback | common/buffer/lru.cpp:177-188 | the last node leaves with both links null; null from an empty list |
| Lru.LRU.Check | common/buffer/lru.cpp:194-225 | the list's own forward and backward check passes in every valid state |
| Lru.MoveLast | common/buffer/buffer.cpp:54-65 | moving the last node of one list to the front of the other keeps both lists, disjoint, and their union |
| PoolSpec.EvictKeeps | common/buffer/buffer.cpp:49-66 | writing back and dropping the oldest pages changes nothing a reader can see |
| PoolSpec.EvictWrites | common/buffer/buffer.cpp:54-65 | a flush writes the resident copies of the pages it drops and no other page |
| PoolSpec.InsertKeeps | common/buffer/buffer.cpp:85-94 | bringing in a page stops exactly when the pool is full and has fewer than 5 frames; otherwise only that page's contents change |
| PoolSpec.InsertPlaces | common/buffer/buffer.cpp:49-94 | a page that comes in becomes the newest; a full pool drops exactly a fifth of its frames for it, the oldest, and any other pool nothing |
| PoolSpec.FlushAllWritesEverything | common/buffer/buffer.cpp:68-83 | after FlushALl nothing is resident and the disk equals what readers saw before |
| PoolSpec.ApplyRefines | common/buffer/buffer.cpp:96-152 | each call does to the contents, and returns, what it does on a plain map from page id to bytes |
| PoolSpec.PutUpdates | common/buffer/buffer.cpp:128-152 | on five frames or more a Put is a map update whatever it evicts |
| PoolSpec.PoolIsMap | common/buffer/buffer.cpp:96-152 | every sequence of Get, Put and FlushALl returns what a plain map returns; 5 frames or more never stop |
| PoolSpec.EvictsOldestInsertions | common/buffer/buffer.cpp:54-65 | at any time the resident pages are exactly the most recent insertions, newest first, so each flush evicts the oldest |
| BufferPool.Buffer.constructor | common/buffer/buffer.cpp:20-37 | every frame is in the free list, nothing is resident, the disk is as given |
| BufferPool.LinkedEvict | common/buffer/buffer.cpp:54-65 | dropping the last page node leaves the index a bijection onto the remaining nodes with matching ids and contents |
| BufferPool.LinkedLoad | common/buffer/buffer.cpp:85-94 | a node that was not in use, filled and indexed in front, leaves the index a bijection with matching ids and contents |
| BufferPool.Buffer.EvictLast | common/buffer/buffer.cpp:54-65 | one turn of the flush loop writes the oldest page back; the two linked lists still partition the frames and the index is still a bijection with matching ids |
| BufferPool.Buffer.FlushPageList | common/buffer/buffer.cpp:49-66 | exactly a fifth of the frames, the oldest, are flushed |
| BufferPool.Buffer.FlushALl | common/buffer/buffer.cpp:68-83 | the pool becomes the fully flushed one |
| BufferPool.Buffer.FreeListToPageList | common/buffer/buffer.cpp:85-94 | a free frame takes the page as newest; refused exactly when none is free |
| BufferPool.Buffer.BufferGetWithLock | common/buffer/buffer.cpp:96-126 | the call and its result are those of the value model, and the frame partition and index bijection survive |
| BufferPool.Buffer.BufferPutWithLock | common/buffer/buffer.cpp:128-152 | the call is that of the value model, and the frame partition and index bijection survive |
| SplitBuffer.StepRefines | common/buffer/buffer.cpp:155-221 | a step that is not hazardous keeps all calls consistent, any number of them on one resident page included; only finishing a call changes the contents, as on a plain map |
| SplitBuffer.SplitLockLinearizes | common/buffer/buffer.cpp:155-221 | every interleaving without hazardous steps returns what the calls, in the order in which they finish, return on a plain map |
| SplitBuffer.WarmPoolLinearizes | instance/manager_instance.cpp:101-106 | once the pages asked for are resident, every interleaving whatsoever is without hazards and the disk is never written |
| SplitBuffer.EnoughFramesNeverFlush | config.h:233-234 | with no more distinct pages than frames nothing is ever flushed, and an interleaving is without hazards if no two calls miss the same page at once |
| SplitBufferExact.FrameFreed | common/buffer/buffer.cpp:165-172 | after a flush of a frame that a call has looked up, that call ends up with another page's frame: a Get returns foreign bytes or a Put overwrites them |
| SplitBufferExact.TwoMisses | common/buffer/buffer.cpp:174-187 | two calls in flight on a page that is not resident can load it twice, and a Put between the loads is lost |
| SplitBufferExact.HazardsAreExact | common/buffer/buffer.cpp:155-221 | after any run without hazards on five frames or more, the next step and all its hazard-free continuations return what a plain map returns if and only if the step is not hazardous: no call on a missing page that has a call in flight, no flush of a page that a call has looked up or that two calls are on |
| SplitBufferExact.TwoFrames | common/buffer/buffer.cpp:174-187 | a concrete run: two readers that miss one page put it into two frames |
| PageLayout.SerializeDeserialize | common/storage/tablespace/page.cpp:29-42 | reading a header and writing it back leaves the page as it was |
| PageLayout.DeserializeSerialize | common/storage/tablespace/page.cpp:29-42 | writing a header and reading it back restores all four fields |
| PageLayout.SerializedHeader | common/storage/tablespace/page.cpp:29-35 | writing the header touches nothing behind byte 64 and the page announces its id |
| PageLayout.HeaderWords | common/storage/tablespace/page.cpp:29-35 | id, page size, used size and version are the first four words, in this order |
| PageLayout.StampAgain | common/workload/ycsb_wl.cpp:67-78 | stamping a reused row buffer gives the same row as stamping a fresh one |
| PageLayout.InitialRowKey | common/workload/ycsb_wl.cpp:67-78 | the initial row carries its key if and only if the row has 16 bytes or the key fits in front of the version word |
| PageLayout.InitialRowRest | common/workload/ycsb_wl.cpp:54-78 | the last word of an initial row is version 0 and every byte between key and version is the filler |
| TableInit.SlotsDisjoint | common/workload/ycsb_wl.cpp:54-86 | slots lie behind the header and inside the page, and slots of different keys do not overlap |
| TableInit.PutRow | common/storage/tablespace/page.cpp:22-27 | appending a row keeps the rows already packed and fits the page |
| TableInit.TurnPage | common/workload/ycsb_wl.cpp:69-76 | a full page goes to disk with all its rows and the next consecutive page starts empty |
| TableInit.InitTable | common/workload/ycsb_wl.cpp:54-86 | key k is on page k / R at offset 64 + (k mod R) * size with R = (page size - 64) / size, for every table size and every row size from 16 bytes to a page; its row is on disk there, and page ids are consecutive |
| RowSpec.InitialTable | common/workload/ycsb_wl.cpp:54-86 | what InitTable leaves is a well-formed table whose rows are the initial rows and carry their keys |
| RowSpec.WriteUpdatesOneRow | common/storage/row_handler.cpp:136-159 | writing a row changes that row and no other, and keeps the table well-formed |
| RowSpec.RowStoreIsMap | common/storage/row_handler.cpp:105-159 | any sequence of ReadRow and WriteRow gives what it gives on a map from key to row, including where a key check stops it |
| RowSpec.KeyCheckHolds | common/storage/row_handler.cpp:121-126 | if all rows, stored and written, carry their key, no key check ever fails |
| RowStore.RowHandler.ReadRow | common/storage/row_handler.cpp:105-129 | under O, P or S, returns the row of the key through pool and lock table, passes exactly when the row carries the key, and leaves the lock table as it was |
| RowStore.RowHandler.WriteRow | common/storage/row_handler.cpp:136-159 | the table gets that one row and the lock table is as before |
| IndexSpec.LoadAppend | common/index/index.cpp:120-135 | cutting the records into chunks at record boundaries makes no difference |
| IndexSpec.SavedLoads | common/index/index.cpp:104-139 | a saved file, even one with leftovers of a longer file behind it, loads as the starting map overridden by the saved one |
| IndexSpec.SavedHeader | common/index/index.cpp:77-81 | the first word of a saved file is the size of header and records, the second the number of keys |
| IndexSpec.SavedRecord | common/index/index.cpp:90-93 | record i stands at byte 16 + 24 * i as key, page id and offset |
| IndexSpec.DecimalValue | common/index/index.cpp:141-156 | the decimal text of a number reads back as the number |
| IndexSpec.DecimalShape | common/index/index.cpp:141-156 | numbers are printed in base ten without leading zeros |
| IndexSpec.ExtractDecimal | common/index/index.cpp:158-178 | stream extraction takes exactly the printed number and leaves the rest |
| IndexSpec.SavedTextLoads | common/index/index.cpp:141-178 | a saved text restores an empty index exactly; in a non-empty one existing entries win |
| KeyIndex.Pwrite | common/storage/disk/file_io.cpp:24-26 | written bytes land at the offset, bytes before and behind stay, a gap reads as zeros, the file never shrinks |
| KeyIndex.Index.IndexGet | common/index/index.cpp:38-48 | found exactly when present, with the entry |
| KeyIndex.Index.IndexPut | common/index/index.cpp:50-66 | the entry is inserted or overwritten |
| KeyIndex.Index.Serialize | common/index/index.cpp:68-102 | whatever the previous file and the order in which the table is walked, the file starts with header and one record per key, and behind them is what was there before |
| KeyIndex.Index.WriteRecord | common/index/index.cpp:83-95 | the chunk buffer holds whole records only and never more than 524280 bytes |
| KeyIndex.Index.DeSerialize | common/index/index.cpp:104-139 | terminates, stops exactly when the file is shorter than it says, and otherwise enters all records of the stated size |
| KeyIndex.Index.Serialize2 | common/index/index.cpp:141-156 | one line of three decimal numbers per key, in walking order |
| KeyIndex.Index.DeSerialize2 | common/index/index.cpp:158-178 | inserts every key not yet present with its two numbers; a key that lacks one is inserted with whatever the variables hold and ends the reading |
| KeyIndex.BinaryRoundTrip | common/index/index.cpp:68-139 | Serialize over any previous file followed by DeSerialize gives the starting map overridden by the saved one |
| KeyIndex.TextRoundTrip | common/index/index.cpp:141-178 | Serialize2 followed by DeSerialize2 gives the saved map overridden by the starting one, so an empty index is restored exactly |
| AbortBuffer.NullSlotsUpdate | instance/thread.cpp:93-104 | replacing a slot moves the number of empty slots by exactly what the slot changed |
| AbortBuffer.Thread.constructor | instance/thread.cpp:15-25 | ten empty slots and the counter at ten |
| AbortBuffer.Thread.PickReady | instance/thread.cpp:88-105 | takes the first slot whose ready time has passed, exactly when there is one; with a full buffer and none ready the minimum found is the earliest ready time and not before now |
| AbortBuffer.Thread.Pick | instance/thread.cpp:84-121 | at the first reading that does not find the buffer full and nothing ready: the first parked query that is ready, or the head of the queue if none is; it sleeps only with a full buffer and no reading past any ready time; both asserts hold |
| AbortBuffer.Thread.Park | instance/thread.cpp:198-206 | the first empty slot takes the query, and its ready time is the clock plus the penalty, less 2^64 if that does not fit |
| AbortBuffer.PickConserves | instance/thread.cpp:84-121 | picking neither loses nor duplicates a query |
| AbortBuffer.ParkConserves | instance/thread.cpp:188-208 | parking neither loses nor duplicates a query |
| AbortBuffer.Thread.Settle | instance/thread.cpp:188-240 | after a transaction the query is committed, parked, kept for a rerun (buffer off) or dropped (outcome neither RCOK nor Abort, buffer on), the assert on empty slots holds, and the buffer changes only by parking |
| AbortBuffer.Thread.NextQuery | instance/thread.cpp:82-127 | buffer on: the picked query; buffer off: the head of the queue after a commit, else the last query again |
| AbortBuffer.Thread.Run | instance/thread.cpp:75-262 | over every sequence of clock readings and outcomes: every round picks, runs and settles as the code does, fetched and committed are those rounds' queries in order, the counter equals the empty slots, fetched equals committed plus dropped plus parked plus at hand, query by query and in number, FINISH comes with exactly 1000, nothing is dropped if outcomes are only RCOK and Abort, and with RCOK in every round the queue is committed in order |
| AbortBuffer.AllCommitted | instance/thread.cpp:84-127 | as long as every transaction commits, the queue is run through in its order and nothing is parked |
| AbortBuffer.OffInOrder | instance/thread.cpp:122-127 | with the buffer off queries commit in the order of the queue, each before the next one is fetched |
| AbortBuffer.PenaltyIsKept | instance/thread.cpp:188-206 | from the time of parking on an entry is ready exactly when clock plus penalty has passed, if and only if that sum fits in 64 bits |
| AbortBuffer.ParkedNotTaken | instance/thread.cpp:92-206 | no look at a reading up to clock plus penalty takes the entry, and a later one finds it ready |
| AbortBuffer.RetryAfterPenalty | instance/thread.cpp:84-206 | in every run a query that does not come from the queue aborted in an earlier round, was parked then, and is run only after a reading past the ready time set then |
| Watermark.ClockKept | instance/thread.cpp:274-281 | in every interleaving of the two counter reads no two threads hold the same timestamp and recorded ones are below the counter |
| Watermark.KeepKept | instance/manager_instance.cpp:136-137 | assigning the value that was compared keeps the call consistent, whatever happened to the slot |
| Watermark.OneLoadIsEnough | instance/manager_instance.cpp:136-137 | a second read that gives what was compared overtakes nothing |
| Watermark.InvKept | instance/manager_instance.cpp:124-141 | every step but an overtaken assignment keeps running scans low and returned values below all present and future timestamps |
| Watermark.WatermarkIsSafe | instance/manager_instance.cpp:133-141 | in every run without an overtaken second read, whatever other calls there are: a result of a call at whose start no thread held an unrecorded first timestamp below the caller's, as when all have recorded one, exceeds no timestamp in use or still to come, and no call that starts after it returned gets less; timestamps are unique |
| Watermark.EarlyCall | instance/manager_instance.cpp:133-141 | a concrete run: a call made before a thread recorded its first timestamp returns more than that timestamp |
| Watermark.SecondRead | instance/manager_instance.cpp:136-137 | a concrete run: all recorded, and the call returns more than its own thread's timestamp because of the second read |
| Watermark.AloneIsMin | instance/manager_instance.cpp:133-141 | without interference the steps of a call compute the least slot |
| Watermark.AloneExact | instance/manager_instance.cpp:133-141 | what a call that nobody interrupts returns is safe if and only if no unrecorded timestamp lies below the least recorded one |
| WatermarkExact.StartUnsafe | instance/manager_instance.cpp:133-141 | after a call starts too early, some continuation without further hazards returns more than a timestamp in use |
| WatermarkExact.AssignUnsafe | instance/manager_instance.cpp:136-137 | after a second read above a slot already passed, some continuation without further hazards has a later call return less |
| WatermarkExact.HazardsAreExact | instance/manager_instance.cpp:124-141 | after any run without hazards and with two more numbers per thread to go, the next step leaves every result below every timestamp in use and results of calls that do not overlap in order, in all hazard-free continuations, if and only if it is neither a start that is too early nor an overtaken second read |
| WatermarkExact.DisciplinedRunsAreSafe | instance/thread.cpp:146-161 | if calls start only when every thread has recorded a timestamp and second reads find what was compared, every run is free of hazards and safe |
| Watermark.ManagerInstance.constructor | instance/manager_instance.cpp:57-60 | counter 1, every slot at the maximum |
| Watermark.ManagerInstance.GetNextTs | instance/manager_instance.cpp:124-127 | returns the counter and advances it |
| Watermark.ManagerInstance.NextTsOfThread | instance/thread.cpp:274-281 | uses two numbers and returns the second |
| Watermark.ManagerInstance.AddTs | instance/manager_instance.cpp:131 | one slot changes |
| Watermark.ManagerInstance.GetMinTs | instance/manager_instance.cpp:133-141 | the result is no larger than any slot and is one of them, or the maximum |
| Arena.NewBlockSize | util/arena.cpp:33-43 | a block is large enough for the request it is made for |
| Arena.CarveBlock | util/arena.cpp:33-49 | a piece of a fresh block overlaps neither earlier pieces nor the room left |
| Arena.RetireBlock | util/arena.cpp:41-43 | giving up the rest of the open block keeps the waste below a quarter because the request did not fit |
| Arena.Slop | util/arena.cpp:54-57 | the distance to the next multiple of 8 |
| Arena.Arena.Allocate | util/arena.h:71-83 | a request that fits goes to the front of the open block, one above 1024 bytes gets a block of its own, any other opens a block of 4096; all regions returned so far are disjoint and inside owned blocks, memory_usage_ is the sum of block size plus pointer size, and 3 * block bytes <= 4 * (requested + 7 * aligned requests) + 3 * 4096 |
| Arena.Arena.AllocateAligned | util/arena.cpp:53-70 | the same, and the result is a multiple of 8 |
| Arena.Arena.AllocateFallback | util/arena.cpp:33-49 | a request above a quarter block gets its own block and leaves the open one; a smaller one opens a new block |
| Arena.Arena.AllocateNewBlock | util/arena.cpp:73-79 | the block is owned and memory_usage_ grows by its size and a pointer |
| Permutation.URand | common/workload/tpcc_helper.cpp:45-53 | a number of the closed range, each of them for some draw: the distance from the lower end is the remainder of the draw |
| Permutation.RoundJoins | common/workload/tpcc_wl.cpp:408-413 | a round joins two cycles into one and touches no other |
| Permutation.ShuffleIsOneCycle | common/workload/tpcc_wl.cpp:401-415 | for every size and every choice sequence: a permutation of 1..n, one single cycle, no fixed point from n = 2 on |
| Permutation.OneCycleIsShuffle | common/workload/tpcc_wl.cpp:401-415 | every permutation that is one cycle comes out of some choice sequence |
| Permutation.InitPermutation | common/workload/tpcc_wl.cpp:401-415 | the in-place loops compute that shuffle, for every sequence of random numbers |

## Left out

- BufferPool.Buffer.constructor: what the page of a list node holds, its id and bytes, is kept in a map from node to contents, not in an object behind the node. The flush moves the node before it writes the page back; the code prepends it to the free list last.
- SplitBuffer.SplitLockLinearizes: page ids are below 2^64 - 1, and an index look-up and a copy of a page are one step each.
- SplitBufferExact.HazardsAreExact: frames and threads together are fewer than 2^64 - 1; with fewer than five frames a full pool stops on an assert instead.
- RowStore.RowHandler.ReadRow: waiting while another thread holds X is covered by the protocol modules only.
- RowSpec.RowStoreIsMap: keys are in the index and written rows have the row size; for others the code uses uninitialised items or copies past a row.
- KeyIndex.Index.DeSerialize: the file holds at least its 16-byte header; for a shorter one the code reads uninitialised variables.
- KeyIndex.BinaryRoundTrip: keys, page ids, offsets and the file size fit in 64 bits.
- IndexSpec.ExtractDecimal: blanks and digits as Serialize2 writes them; signs, other white space and overflow of the stream extraction are not modelled.
- Arena.Arena.AllocateAligned: the sum of request and slop does not overflow size_t; block addresses come from the system, multiples of 8 and disjoint from live blocks.
- Watermark.WatermarkIsSafe: the counter stays below 2^64 - 1; reads and writes of a slot are atomic.
- Ownership: requests ask for full pages, local buffers do not evict, copying a page in or out of a buffer is one step, and invalid_req is only advisory. A thread that finds another request in flight goes back to idle instead of spinning. RemoveThread's unprotected mode check is not a guard of the model, which allows more interleavings.
- AbortBuffer.Thread.Run: warm-up is finished, and an unbounded life is covered by its finite stretches. Sleeping times are not modelled.
- Permutation.InitPermutation: at least one customer per district.
- Liveness, fairness and real time, RPC transport, message loss and restarts.
- Transactions, Row_mvcc and serializability; SnapShotReadRow, which is ReadRow without the lock.
- Partial pages in BufferGet and BufferPut, mmap, freeing, profiling, statistics, printing and command line.
- The USE_MUTEX, USE_CAS and USE_TBB variants and DB2_WITH_NO_CONFLICT.
- TPC-C key functions, row filling and NURand: the keys are sums of products whose ranges the loader does not check, and the row contents are random.
- TableSpace and Index file naming, and the old code under system/.
