# Verified model of the Lupin shared-memory pool

Lupin keeps a shared memory pool alive across machine crashes. This project models the parts of it
that carry the hard promises, and proves them in Dafny. Nothing was executed: every statement below
is a proof about the model.

- **Buddy allocator over a packed bitset** (`Bitset`, `BuddyPositions`, `BuddyFields`,
  `BuddyStatus`, `BuddySearch`, `BuddyChoice`, `BuddyCuts`, `BuddyTree`, `BuddyArena`, `BuddyVirtual`,
  `BuddyWalk`, `BuddyAllocator`). The abstract state is the set of live blocks. `BuddyStatus.Canonical`
  says that the stored statuses are a function of that set. `mark`, `release` and `find_free` work on
  the packed bytes and are proved against the live set, for a tree of any order (the class `Tree` keeps
  the source's limit of 31).
- **Crash-atomic updates** (`RedoLog`, `MetaStores`, `StoreSteps`, `StoreWork`, `CrashRecovery`,
  `LogDraft`, `CrashPoints`, `RunsToEnd`, `ChainCrashes`, `IdealChecksum`, `ObjectPool`, `ListRemoval`,
  `ObjectFree`, `DriverTrace`, `PoolDriver`, `StaleLog`, `PoolHistory`, `PoolRuns`, `Directory`). An
  update builds a redo log one store at a time, commits it with a checksum, executes it, and is replayed
  after a crash. The machine may crash after any store, and inside a buddy operation after or in the
  middle of any status it writes, any number of times, also during recovery. It halts where
  `execute_log` finds a null pointer. Allocations and frees run as such updates, one after the other, by
  any machines, over whatever the earlier ones left in the log. The driver's methods make their stores in
  the order of that machine, so that every point at which they can be cut is one of its states.
- **Locks as step systems** (`CyclicScan`, `WPortLock`, `WPortCalls`, `TokenLock`, `TokenCalls`, `TtasLock`,
  `QueuedSpinlock`, `SpinlockCalls`, `SpinlockProgress`). Every shared read, write and compare-and-swap is
  a step, interleaved in any order by any number of processes. A run is any finite sequence of steps from
  the initial state. The safety laws are about all runs. Beside them stand laws about what a whole call
  does when it meets no other steps, and about who can still get in.
- **MPSC queue and futex** (`MpscQueue`, `Futex`, `FutexCalls`), as step systems in the same style.

Modelling decisions that apply throughout:

- Memory is sequentially consistent and every store survives a crash, as in the byte-granular build
  that `driver/Makefile` selects.
- The state that C code updates in place is a class with a bitset array, a log array, or a word map
  (`Tree`, `Allocator`, `WalkState`, `Pool`). `Sequences` holds what several modules need. Concurrent
  code is a step system over immutable states, because its properties range over interleavings. Fields
  such as `epoch`, `seen`, `since`, `inside`, `enq`, `out`, `woke` and `trace` are history: no step reads
  them to decide anything the source decides.
- Every entry may be cut between any two of its stores. A `BUDDY_ALLOC` or `BUDDY_FREE` entry may be cut
  between any two statuses it writes, and a crash while a status is written leaves any value in it.
- A checksum match means that the entries are the committed ones (`CrashRecovery.Ideal`). This is the
  one hypothesis about code that is not modelled. `IdealChecksum.IdealExists` shows that it can be met;
  a 64-bit checksum meets it only up to collisions.
- Machine numbers start at 1, as taking the metadata lock demands
  (`src/common/tatas/tatas_spinlock_kern.h`, line 29).
- Clocks, timeouts, signals and the order of the scheduler are free choices of a step.

Places where the code does something other than its surroundings suggest, kept as the code has it:

- `FirstHalts` and `FreeingFirstHalts`: freeing the first of several objects logs a splice whose second
  offset is null. Once that log is committed, executing it halts the machine after the block is
  released and one link is cleared, with the list head still on the freed header. Every recovery
  replays the log into the same halt. `HaltsForEver` states this for any update with a halt in it.
- `LastLeavesTail`: freeing the last of several objects runs to its end, but leaves the list tail on the
  freed header and makes one store below the list. `RemoveExact` and `FreeExact` give the exact
  conditions: the object is the only one or between two others, and for `FreeExact` also that the
  offset and length given by the caller lead to the object's own block.
- `CrashAtomic`, `AllocationIsAtomic`, `FreeingIsAtomic` and `PoolSurvives`: updates are atomic if and only
  if no crash falls inside a buddy operation past repair. `update_parent_chain` stops at the first
  ancestor that is right, and `buddy_tree_release` at once if the status of the block is not full. So a
  replay repairs a mark that was cut before it finished its first ancestor, and a release that has
  written nothing; from then on until they are complete it changes nothing more, and recovery still
  returns success (`MarkCutExact`, `ReleaseCutExact`, `CutExact`, `TearExact`). `CutMarkFails` is an input
  after which the search returns a block around a live one, `CutReleaseFails` one after which it finds
  no block in an empty arena. `SpoiltAllocation` gives the whole history: from any pool with one commit
  record, recovery reports success and the state is no pool any more.
- `RecoveryErrorExact`: a crash while a log is rebuilt over older ones leaves the metadata intact, but
  recovery reports an error for exactly the crash points stated there. `RebuildIsRefused` and
  `CommitIsRefused` give runs that end in such an error.
- `SecondRecordIsLeft` and `StaleRecordRevives`: a free logs fewer entries than an allocation. Cut right
  after its checksum, it leaves the commit record of the older allocation behind its own. When the same
  allocation is later built again and cut before it erases that record, recovery completes it although
  it never stored a record of its own. `TookExact` says exactly when an update takes effect, and
  `AllocatesWithoutRecord` gives the whole history from any pool without objects. No other update is
  ever revived (`AllocIsHonest`, `FreeIsHonest`), so updates stay atomic.
- `ReleaseExact`: releasing a position that is not live itself but is filled by live blocks below it
  leaves statuses that no live set explains. `ReleaseOfHalvesFails` is such an input. `buddy_free` never
  releases such a position, by `FreeAddressExact`.
- `TakeOverExact`: when recovery may read the TTAS word at any time, at most one process is ever in the
  critical section if and only if no take-over finds a holder that still runs. `TwoHolders` is a run in
  which one does. The code compares machine and process numbers only, so exclusion rests on when recovery
  is called.
- `Pool.FindAllocation`: a failed allocation is not reported. The offset it returns is the null
  pointer's distance from the start of the memory, modulo two to the 64.
- `Pool.Free`: a name that is not in the pool is reported as freed.
- `Pool.Check`: the count of the slots in use looks at as many bits as the slot map has bytes, and one
  more. So the check halts on a pool that is in order as soon as an object lives in a slot beyond 43.
- `RecoverAlone`: a process of the W-port lock that crashed while it was registered, but not yet named,
  stays registered after its recovery. Nothing takes the bit back until it comes again.

## Model

| member | source | states |
|---|---|---|
| `Bitset.MaskBit` | src/buddy/bitset.c:9-18 | Entry [f][t] of the mask table has bit j set if and only if f <= j <= t. |
| `Bitset.ClearRange` | src/buddy/bitset.c:27-51 | Bits from..to become 0 and every other bit of the bitset keeps its value. |
| `Bitset.SetRange` | src/buddy/bitset.c:53-70 | Bits from..to become 1 and every other bit of the bitset keeps its value. |
| `Bitset.CountRange` | src/buddy/bitset.c:72-91 | The result is the number of set bits in from..to, over masked end bytes and whole bytes between. |
| `Bitset.Test` | src/buddy/include/bitset.h:57-61 | The result is the bit at that position of the bitset read as a sequence of bits. |
| `BuddyFields.SizeForOrderLoop` | src/buddy/include/buddy_alloc.h:1339-1348 | The summing loop equals the closed form 2^(o-to) * (to+2) - (o+2). |
| `BuddyFields.TotalBits` | src/buddy/include/buddy_alloc.h:1339-1348 | A tree of order o takes 2^(o+1) - o - 2 bits. |
| `BuddyFields.FieldsDisjoint` | src/buddy/include/buddy_alloc.h:1350-1372 | The field of a position ends before the field of every later position begins, inside the bits of the tree. |
| `BuddyFields.FieldsTile` | src/buddy/include/buddy_alloc.h:1350-1372 | Every bit of the tree lies in the field of exactly one position. |
| `BuddyFields.WriteUnary` | src/buddy/include/buddy_alloc.h:1589-1605 | The field holds the value in unary afterwards and no bit outside it changes. |
| `BuddyFields.WriteReachesOne` | src/buddy/include/buddy_alloc.h:1589-1605 | Writing one field changes the encoded status array at that position and nowhere else. |
| `BuddyFields.OnesOfUnary` | src/buddy/include/buddy_alloc.h:1607-1612 | Counting the bits of a field gives back the value written, also over a span shorter than the field. |
| `BuddyFields.MemoTableFits` | src/buddy/include/buddy_alloc.h:1374-1386 | The memo table lies after the bits and ends inside the size reserved for the tree. |
| `BuddyStatus.LocalIsCanonical` | src/buddy/include/buddy_alloc.h:1825-1857 | Statuses that satisfy the local rule at every position equal the recursive meaning of the live set. |
| `BuddyStatus.ChainRepairs` | src/buddy/include/buddy_alloc.h:1701-1724 | If only the parent of p may be wrong, walking up the chain with the early exit makes every status right. |
| `BuddyStatus.MarkIsCanonical` | src/buddy/include/buddy_alloc.h:1675-1684 | Marking a free or already live position leaves exactly the statuses of the live set with it added. |
| `BuddyStatus.ReleaseIsCanonical` | src/buddy/include/buddy_alloc.h:1686-1699 | Releasing a live position leaves exactly the statuses of the live set without it. |
| `BuddyStatus.CanonicalUnique` | src/buddy/include/buddy_alloc.h:1825-1857 | Two status arrays canonical for the same live set are equal. |
| `BuddyStatus.LiveIsDecodable` | src/buddy/include/buddy_alloc.h:1670-1673 | A position is live if and only if its status is full and its left child's is zero, so statuses determine the live set. |
| `BuddyStatus.MarkThenRelease` | src/buddy/include/buddy_alloc.h:1675-1699 | Marking a free position and releasing it restores the whole tree. |
| `BuddyStatus.ReleaseThenMark` | src/buddy/include/buddy_alloc.h:1675-1699 | Releasing a live position and marking it restores the whole tree. |
| `BuddyStatus.MarkIdempotent` | src/buddy/include/buddy_alloc.h:1675-1684 | A second mark of the same position changes nothing, on any statuses. |
| `BuddyStatus.ReleaseIdempotent` | src/buddy/include/buddy_alloc.h:1686-1699 | A second release of the same position changes nothing, on any statuses. |
| `BuddyStatus.ReleaseExact` | src/buddy/include/buddy_alloc.h:1686-1699 | Releasing any position leaves a consistent tree if and only if the position is live or its status is not full. |
| `BuddyStatus.ReleaseOfHalvesFails` | src/buddy/include/buddy_alloc.h:1686-1699 | Marking both halves of any position in an empty tree and releasing the position leaves statuses of no live set. |
| `BuddyCuts.ChainCutExact` | src/buddy/include/buddy_alloc.h:1701-1724 | The chain cut after n writes is the whole chain if and only if n is at least the number of ancestors it writes. |
| `BuddyCuts.MarkCutExact` | src/buddy/include/buddy_alloc.h:1675-1724 | Replaying a mark that was cut after n ancestors gives the whole mark if and only if n is 0 or all of them; in between it changes nothing. |
| `BuddyCuts.ReleaseCutExact` | src/buddy/include/buddy_alloc.h:1686-1724 | Replaying a release that was cut after its own status and n ancestors changes nothing, and so gives the whole release if and only if n was all of them. |
| `BuddyCuts.CutMarkFails` | src/buddy/include/buddy_alloc.h:1675-1724 | Marking any position at depth three or more in an empty tree, cut after one ancestor and replayed: the statuses are not those of the block, and the search for the whole arena returns the root around it. |
| `BuddyCuts.CutReleaseFails` | src/buddy/include/buddy_alloc.h:1686-1724 | Releasing the only block of a tree, cut after its own status and replayed: everything is free, and the search for the whole arena finds nothing. |
| `BuddySearch.StatusMeaning` | src/buddy/include/buddy_alloc.h:1726-1771 | The status of an uncovered position is at most j if and only if a free block lies j levels below it. |
| `BuddySearch.FindFreeExact` | src/buddy/include/buddy_alloc.h:1726-1771 | The search returns a free position of the target depth, and the invalid position if and only if there is none. |
| `BuddyChoice.FindFreeIsBest` | src/buddy/include/buddy_alloc.h:1726-1771 | With the block the search finds taken, the status of the root is at most what it is with any other free block of that depth taken: no choice leaves a larger free block. |
| `BuddyChoice.NextRequestIsBest` | src/buddy/include/buddy_alloc.h:1726-1771 | If a following request of any size succeeds after some other free block of the depth was taken, it succeeds after the one found. |
| `BuddyChoice.FindFreeChooses` | src/buddy/include/buddy_alloc.h:1745-1767 | A free block of the depth is the one found if and only if at every position above it it lies in the half without which the other has no room, in the busier half, or in the left one of two that are equally busy. |
| `BuddyTree.PopulateSizes` | src/buddy/include/buddy_alloc.h:1571-1582 | The memo table holds the closed-form size for every order. |
| `BuddyTree.Tree.constructor` | src/buddy/include/buddy_alloc.h:1388-1397 | A fresh tree encodes the statuses of the empty live set. |
| `BuddyTree.Tree.InternalPosition` | src/buddy/include/buddy_alloc.h:1350-1372 | The memo-table computation gives the width and location of the field. |
| `BuddyTree.Tree.WriteField` | src/buddy/include/buddy_alloc.h:1589-1605 | The status array changes at that position only. |
| `BuddyTree.Tree.ReadField` | src/buddy/include/buddy_alloc.h:1607-1612 | The result is the stored status. |
| `BuddyTree.Tree.AtLeast` | src/buddy/include/buddy_alloc.h:1614-1616 | The single-bit test decides whether the stored status is at least the given value. |
| `BuddyTree.Tree.Status` | src/buddy/include/buddy_alloc.h:1670-1673 | The result is the stored status of the position. |
| `BuddyTree.Tree.UpdateParentChain` | src/buddy/include/buddy_alloc.h:1701-1724 | The loop over packed bytes refines the chain update on the status array. |
| `BuddyTree.Tree.MarkPosition` | src/buddy/include/buddy_alloc.h:1675-1684 | The packed tree refines mark on the status array. |
| `BuddyTree.Tree.ReleasePosition` | src/buddy/include/buddy_alloc.h:1686-1699 | The packed tree refines release on the status array, including its early return. |
| `BuddyTree.Tree.FindFreePosition` | src/buddy/include/buddy_alloc.h:1726-1771 | The loop over packed bytes refines the search on the status array, whose result `FindFreeChooses` determines. |
| `BuddyArena.EffectiveIsCeiling` | src/buddy/include/buddy_alloc.h:1069-1071 | The effective size is the smallest power of two not below the memory size. |
| `BuddyArena.DepthForSize` | src/buddy/include/buddy_alloc.h:1047-1059 | A block of the returned depth holds the request raised to the alignment, and is less than twice as large. |
| `BuddyArena.FitsDepthUnique` | src/buddy/include/buddy_alloc.h:1047-1059 | No other depth fits the request in that sense. |
| `BuddyArena.FitsDepthIsSmallest` | src/buddy/include/buddy_alloc.h:1047-1059 | That depth is the deepest whose blocks hold the request. |
| `BuddyArena.AddressOf` | src/buddy/include/buddy_alloc.h:1082-1086 | The computed offset is the first byte of the block. |
| `BuddyArena.AddressRoundTrip` | src/buddy/include/buddy_alloc.h:1095-1125 | Looking up the address of a live block gives back that block. |
| `BuddyArena.FreeFindsBlock` | src/buddy/include/buddy_alloc.h:877-917 | At the address of a live block the lookup gives that block if the size is one that gets a block of its depth, and the invalid position for every other size. |
| `BuddyArena.FoundFits` | src/buddy/include/buddy_alloc.h:877-917 | Whatever position the lookup gives starts at the offset, inside the memory, and has the depth of the size; it is live, or releasing it changes nothing. |
| `BuddyArena.FreeAddressExact` | src/buddy/include/buddy_alloc.h:844-871 | Freeing an address that starts no live block changes nothing; freeing one that does releases exactly that block. |
| `BuddyVirtual.SlotsTile` | src/buddy/include/buddy_alloc.h:1138-1182 | The slots marked below a position tile exactly the last delta units of its range, without overlap. |
| `BuddyVirtual.VirtualSlotsTile` | src/buddy/include/buddy_alloc.h:1138-1182 | For every arena the slots tile exactly the range between memory size and effective size. |
| `BuddyVirtual.FreeIsInsideArena` | src/buddy/include/buddy_alloc.h:1138-1182 | While the slots are live, every free position lies inside the arena. |
| `BuddyVirtual.VirtualRoundTrip` | src/buddy/include/buddy_alloc.h:1138-1182 | Marking the slots in an empty tree is consistent, and releasing them restores the empty tree. |
| `BuddyWalk.TurnIsNextBlock` | src/buddy/include/buddy_alloc.h:1648-1668 | Leaving a block, the walk goes on with the block that starts where it ends. |
| `BuddyWalk.WalkState.constructor` | src/buddy/include/buddy_alloc.h:1641-1646 | The walk starts at the root, going down. |
| `BuddyWalk.WalkState.Walk` | src/buddy/include/buddy_alloc.h:1648-1668 | One call of the stackless loop moves to the left child or to the next block, and ends after the last. |
| `BuddyWalk.FreeListExact` | src/buddy/include/buddy_alloc.h:633-651 | A position is among those counted if and only if it is a maximal free block. |
| `BuddyWalk.FreeListAscending` | src/buddy/include/buddy_alloc.h:633-651 | The counted blocks come in address order without overlap, so none is counted twice. |
| `BuddyWalk.Conservation` | src/buddy/include/buddy_alloc.h:633-651 | Units of the maximal free blocks and of the live blocks add up to the whole tree. |
| `BuddyAllocator.Allocator.constructor` | src/buddy/include/buddy_alloc.h:454-498 | A new allocator has exactly the virtual slots live. |
| `BuddyAllocator.Allocator.Toggle` | src/buddy/include/buddy_alloc.h:1138-1182 | The toggling loop terminates and marks or releases exactly the virtual slots. |
| `BuddyAllocator.Allocator.MallocFindPos` | src/buddy/include/buddy_alloc.h:705-735 | It returns the fitting free block in the preferred half of every position above it, inside the memory, and fails if and only if no block fits. |
| `BuddyAllocator.Allocator.MallocApply` | src/buddy/include/buddy_alloc.h:740-748 | The position joins the live set and its address is returned. |
| `BuddyAllocator.Allocator.PositionFor` | src/buddy/include/buddy_alloc.h:1095-1125 | The climbing loop over the packed tree refines the address lookup on statuses. |
| `BuddyAllocator.Allocator.FreeFindPosition` | src/buddy/include/buddy_alloc.h:877-917 | A live block is the result if and only if it starts at the offset and the size is one that gets it; at the address of a live block the result is that block or invalid. |
| `BuddyAllocator.Allocator.FreeAt` | src/buddy/include/buddy_alloc.h:844-871 | The live set loses the block that starts at the address, if there is one; otherwise the tree is unchanged. |
| `BuddyAllocator.Allocator.FreeSize` | src/buddy/include/buddy_alloc.h:633-651 | The walk terminates, visits each maximal free block once, and its sum plus the bytes of live blocks is the memory size. |
| `BuddyAllocator.MallocExact` | src/buddy/include/buddy_alloc.h:705-735 | On consistent statuses the search at the fitting depth finds the preferred block, inside the memory, unless none fits. |
| `BuddyAllocator.FittingIsSmallest` | src/buddy/include/buddy_alloc.h:705-735 | A free block fits a request, also one of size zero, if and only if it holds it and blocks of half its size do not exist or do not. |
| `BuddyAllocator.BestFitIsBest` | src/buddy/include/buddy_alloc.h:705-735 | No fitting block leaves a larger free block behind than the preferred one, and no other is preferred. |
| `RedoLog.BuiltEntryDecodes` | driver/src/log.c:162-287 | Every entry written by a builder over any old entry decodes to the operation it was built from. |
| `MetaStores.RunStoresExact` | driver/src/log.c:8-156 | Executing stores halts if and only if one of them is through a null pointer, and otherwise makes all of them. |
| `MetaStores.HaltsAtNull` | driver/src/log.c:8-156 | A list of entries comes to a halt if and only if one of them is a splice with a null offset or a header entry with a null record. |
| `MetaStores.WritesAsked` | driver/src/log.c:31-60 | A value, pair or string entry without a null pointer makes its words what it asks for, and changes nothing else. |
| `StoreSteps.WritesAreCuts` | src/buddy/include/buddy_alloc.h:1675-1699 | The states between two writes of a mark or release are exactly its cuts after n ancestors. |
| `StoreSteps.CutExact` | driver/src/log.c:23-30 | Replaying a buddy operation cut between two writes leads where it was going if and only if it was not strictly inside its chain; inside, the replay changes nothing. |
| `StoreSteps.TearExact` | src/buddy/include/buddy_alloc.h:1589-1605 | Replaying a buddy operation cut inside a status, with any value left there, leads where it was going if and only if it is a mark that has not finished its first ancestor. |
| `StoreSteps.ReplayFromWrite` | driver/src/log.c:8-156 | Replaying all stores after any number of their writes gives the same memory as running them once, if and only if the cut is not strictly inside the chain of a buddy operation. |
| `CrashRecovery.CommitPoint` | driver/src/log.c:289-305 | The store of the checksum turns an uncommitted state into a committed one. |
| `CrashRecovery.CrashAtomic` | driver/src/buddy_alloc.c:442-475 | After any run with any number of crashes that ends completed or recovered, the metadata is the pre-state if the update did not take effect; if it did, it is the post-state if and only if no crash fell inside a buddy operation past repair, and otherwise differs from it in the tree alone. |
| `CrashRecovery.TookIsCommit` | driver/src/log.c:289-305 | With one commit record in the log, an update takes effect by storing its checksum and in no other way. |
| `CrashRecovery.HaltsForEver` | driver/src/log.c:8-156 | An update with a null pointer in it is never completed or recovered once it took effect, and always halts in the same state; the tree is complete there if and only if no crash fell inside a buddy operation past repair. |
| `CrashRecovery.UntouchedBeforeCommit` | driver/src/log.c:289-305 | Until the update takes effect, in every state of every run, the metadata is the pre-state, except that between a crash and the end of recovery the status rewritten by the replay of the last update may be torn. |
| `CrashPoints.RecoveryErrorExact` | driver/src/buddy_alloc.c:442-475 | Over any log with one or two records that can check and any number that cannot, recovery reports an error if and only if the update did not store its checksum and the crash fell after the type of its commit record was stored, or before the next old record was erased and with other entries under it than its own. |
| `CrashPoints.RebuildIsRefused` | driver/src/buddy_alloc.c:442-475 | For every number of complete entries below that of an old record there is a run that crashes there and ends in the error, with the metadata intact. |
| `CrashPoints.CommitIsRefused` | driver/src/log.c:289-305 | Over any old log there is a run that crashes before the checksum store and ends in the error. |
| `CrashPoints.SecondRecordIsLeft` | driver/src/log.c:289-305 | A run of an update one entry shorter than the old log reaches its checksum store with the old record still behind its own. |
| `CrashPoints.TookExact` | driver/src/buddy_alloc.c:442-475 | An update whose run ends recovered took effect if and only if it stored its checksum, or the crash fell when the entries of a stale record were complete under it. |
| `ChainCrashes.SpoiltRun` | driver/src/buddy_alloc.c:442-475 | Every update that starts with a buddy operation with enough ancestors to write has a run that is cut inside the chain, whose recovery succeeds with a tree other than that of the update. |
| `RunsToEnd.WorkFinishes` | driver/src/log.c:8-156 | Execution and recovery of entries without a null pointer get to their end from every state. |
| `CrashRecovery.NextUpdateCanStart` | driver/src/buddy_alloc.c:442-475 | After a completed or recovered update the log is again a legal starting point, with at most two records that can check, and recovery would change nothing. |
| `ObjectPool.AllocIsUpdate` | driver/src/buddy_alloc.c:741-783 | The entries of an allocation form an update: well formed, with stores independent of each other. |
| `ObjectPool.AllocEffect` | driver/src/obj_header.c:20-74 | Executing the entries marks the block, sets the slot bit, and changes exactly the named words of header, list and counter; the header records offset, length and the allocating machine. |
| `ObjectPool.AppendLinks` | driver/src/list_queue.c:4-45 | The doubly linked list afterwards is the old one with the new header at its end. |
| `ObjectPool.NameReadBack` | driver/src/log.c:86-91 | A name written as a terminated string is read back. |
| `ObjectPool.AllocKeepsInv` | driver/src/buddy_alloc.c:741-783 | The pool invariant holds again with the new slot and block, and the directory gains exactly the new name, with its region and the allocating machine. |
| `ObjectPool.AllocationIsAtomic` | driver/src/buddy_alloc.c:741-783 | Under any crashes an allocation leaves the old pool unchanged, or, if it took effect, the new name in the directory and its slot set, and a valid pool if and only if no crash fell inside its mark past repair. |
| `ObjectPool.OtherTreeIsNoPool` | driver/src/buddy_alloc.c:741-783 | The headers determine the tree: a pool with any status changed is no pool, for any list of headers and blocks. |
| `ObjectPool.RegionsDisjoint` | driver/src/buddy_alloc.c:907-963 | Regions of different names do not overlap and lie inside the arena. |
| `ObjectPool.SlotsConserved` | driver/src/obj_header.c:20-74 | Available slots plus set slot bits is 340, and the list has one entry per name. |
| `ObjectFree.FreeIsUpdate` | driver/src/buddy_alloc.c:815-905 | The entries of a free form an update for every header, with a halt in it if and only if the header is the first of several. |
| `ObjectFree.FindsOwnBlock` | driver/src/buddy_alloc.c:815-905 | The offset recorded in a header leads to the header's own block if the length is one that gets the same block size as the recorded one, and to no position otherwise. |
| `ObjectFree.FreeExact` | driver/src/buddy_alloc.c:815-905 | A free runs to its end and leaves the pool without the header if and only if the header is the only one or between two others and the position released is its own block. |
| `ObjectFree.FreeingIsAtomic` | driver/src/buddy_alloc.c:815-905 | Under any crashes a free of such a header leaves the old pool unchanged, or, if it took effect, the directory without the name and the slot cleared, and a valid pool if and only if no crash fell inside its release past repair. |
| `ObjectFree.FreeingFirstHalts` | driver/src/buddy_alloc.c:815-905 | A free of the first of several that took effect is never completed or recovered; at each halt the header still heads the list and the block is released, completely so if and only if no crash fell inside the release past repair. |
| `PoolDriver.EntryIsBuilt` | driver/src/log.c:162-287 | The stores of a builder leave an entry that decodes to its operation, with the next entry erased. |
| `PoolDriver.Pool.SetEntry` | driver/src/log.c:162-287 | The builder makes the stores of its entry in their order: it writes the entry, erases the next, leaves all others, and advances the position by one. |
| `PoolDriver.Pool.SetCommit` | driver/src/log.c:289-305 | The COMMIT entry carries the checksum of the entries before it, which it leaves alone; its type is stored first, then the checksum, and then the next entry is erased. |
| `PoolDriver.InitRecords` | driver/src/obj_header.c:8-18 | All 340 slots are available, every header knows its slot number, the block is linked to no other, and no word outside it changes. |
| `PoolDriver.Pool.constructor` | driver/src/buddy_alloc.c:360-431 | A new pool is valid, its directory empty and its log erased. |
| `PoolDriver.Pool.ExecuteLog` | driver/src/log.c:8-156 | The loop makes the stores of the decoded entries in their order, up to the first null pointer, where it halts. |
| `PoolDriver.Pool.Recover` | driver/src/buddy_alloc.c:442-475 | It makes exactly the stores of a log whose checksum matches, in their order, halting where they do, and reports an error exactly on a mismatch. |
| `PoolDriver.Pool.FirstFreeSlot` | driver/src/obj_header.c:20-74 | The result is the smallest slot not in use. |
| `PoolDriver.Pool.LookUp` | driver/src/buddy_alloc.c:907-963 | Walking the list finds a header for the name if and only if the directory has it, with its region. |
| `PoolDriver.Pool.RecordRemove` | driver/src/list_queue.c:48-89 | The entries written are those that unlink the header, chosen by its place in the list. |
| `PoolDriver.Pool.RecordFree` | driver/src/buddy_alloc.c:815-905 | The log holds the committed entries of this free; the stores made are the erasing of entry 0, the entries in their order, and the commit record. |
| `PoolDriver.Pool.PositionAt` | driver/src/buddy_alloc.c:155-162 | The position is the one the address and length stand for, or invalid outside the arena; `FoundFits` and `FreeFindsBlock` say which one that is. |
| `PoolDriver.Pool.Free` | driver/src/buddy_alloc.c:815-905 | An unknown name changes nothing and succeeds, a bad address changes nothing and fails, else the logged entries are run. At the object's own offset it fails if and only if the length gets another block size than the recorded one, and otherwise an object that is only or between two others leaves the pool and the directory. |
| `PoolDriver.Pool.Check` | driver/src/buddy_alloc.c:608-694 | An unknown name is reported; for a known one the check passes if and only if the record has the offset, the length and this machine, and no slot beyond 43 is in use. |
| `PoolDriver.Pool.FindPosition` | driver/src/buddy_alloc.c:696-731 | It returns the fitting free block in the preferred half of every position above it, inside the arena, and fails if and only if none fits. |
| `PoolDriver.Pool.RecordAppend` | driver/src/list_queue.c:4-45 | The two entries written are those that append the header, chosen by whether the list is empty. |
| `PoolDriver.Pool.RecordAllocation` | driver/src/buddy_alloc.c:741-783 | The log holds the committed entries of this allocation; the stores made are the entries in their order and the commit record. |
| `PoolDriver.Pool.Allocate` | driver/src/buddy_alloc.c:741-783 | It succeeds if and only if a block fits; then it takes the first free slot and the preferred block, and the directory gains the name with that block's offset, the length and this machine; else nothing changes. |
| `PoolDriver.Pool.FindAllocation` | driver/src/buddy_alloc.c:907-963 | A known name gets its recorded region and changes nothing; an unknown one of length 0 keeps the caller's offset; any other is allocated and entered with this machine; failure happens exactly when no block fits. |
| `PoolDriver.Pool.Perform` | driver/src/buddy_alloc.c:741-783 | An allocation makes all stores to the log, the commit record last, before its first store to the metadata, and ends in the state the update leads to. |
| `PoolDriver.Pool.PerformFree` | driver/src/buddy_alloc.c:815-905 | The same for a free, which erases entry 0 first, and which may halt. |
| `DriverTrace.CutIsReached` | driver/src/buddy_alloc.c:741-905 | Wherever the driver is cut between two stores of such a sequence, the crash machine has a run without crashes to exactly that log and metadata, so the laws over its runs hold of the driver. |
| `DriverTrace.RecoveryIsReached` | driver/src/buddy_alloc.c:442-475 | The same for a recovery cut between two of its stores. |
| `StaleLog.AllocIsHonest` | driver/src/buddy_alloc.c:741-783 | While an allocation builds its log over a log with a stale record, recovery would replay only the last update or this very allocation. |
| `StaleLog.FreeIsHonest` | driver/src/buddy_alloc.c:815-905 | The same while a free builds its log. |
| `StaleLog.StaleRecordRevives` | driver/src/buddy_alloc.c:442-475 | Over a log with a stale record there is a run in which recovery completes the update with the stale entries, which never stored its own record. |
| `PoolHistory.FreshPoolIsSound` | driver/src/buddy_alloc.c:360-431 | A pool with an erased log is a legal start of a history. |
| `PoolHistory.EpisodeKeepsSound` | driver/src/buddy_alloc.c:741-905 | One allocation or free under any crashes leaves a sound pool and log, or no pool if a crash fell inside its buddy operation past repair; the directory is unchanged or changed exactly as the update says. |
| `PoolHistory.EpisodeErrorExact` | driver/src/buddy_alloc.c:442-475 | At every point of every history, recovery of the current allocation or free reports an error for exactly the crash points of `RecoveryErrorExact`. |
| `PoolHistory.PoolSurvives` | driver/src/buddy_alloc.c:741-905 | After any sequence of allocations and frees by any machines, each interrupted by any crashes and recovered, the pool invariant and the log's legality hold if and only if no crash fell inside a buddy operation past repair. |
| `PoolHistory.DirIsLedger` | driver/src/buddy_alloc.c:741-905 | After any such history that leaves a pool, the directory is what the episodes that took effect entered and took out, each name with the machine that allocated it. |
| `PoolHistory.RecordStays` | driver/src/buddy_alloc.c:741-905 | The record of a name, with offset, length and allocating machine, is the same after any history in which no episode frees that name. |
| `PoolRuns.SpoiltAllocation` | driver/src/buddy_alloc.c:741-783 | On every pool with one commit record, every allocation whose mark writes two ancestors or more has a run that recovery ends with success and that leaves no pool. |
| `PoolRuns.AllocatesWithoutRecord` | driver/src/buddy_alloc.c:741-905 | On every pool without objects, for every object: a history of an allocation, a free cut at its checksum and the same allocation cut, after which the name is there although the second allocation never stored a checksum. |
| `Directory.RepeatedName` | driver/src/buddy_alloc.c:907-963 | In any history a name asked for again after a success is answered as existing with the first offset and length. |
| `Directory.DistinctNames` | driver/src/buddy_alloc.c:907-963 | In any history successful answers for different names do not overlap and lie in the arena. |
| `Directory.DirectoryIsAnswers` | driver/src/buddy_alloc.c:907-963 | From an empty pool the directory is exactly the set of successful answers, each with the machine that made the allocating call. |
| `ListRemoval.RemoveEffect` | driver/src/list_queue.c:48-89 | Executing the removal entries stores exactly the words the splice names, and halts if and only if the predecessor is null and the header is not the only one. |
| `ListRemoval.RemoveExact` | driver/src/list_queue.c:48-89 | Removal runs to its end and leaves the list without that header if and only if it was the only entry or between two others. |
| `ListRemoval.FirstHalts` | driver/src/list_queue.c:48-89 | The first of several halts after one store, with the list head still on it. |
| `ListRemoval.LastLeavesTail` | driver/src/list_queue.c:48-89 | The last of several does not halt, but the list tail stays on it and a word below the list is written. |
| `ListRemoval.RemoveInsideExact` | driver/src/list_queue.c:48-89 | All stores that are made go to words of the list if and only if the entry is the only one or not the last. |
| `CyclicScan.NextBit` | src/common/atomic_bitset.h:146-158 | The loop finds the registered port first reached going round from k. |
| `CyclicScan.DistanceShrinks` | src/common/atomic_bitset.h:146-158 | Going round to a nearer port shortens the way to a farther one by exactly that distance. |
| `WPortLock.MutualExclusion` | src/common/jj_ab_spin/jj_ab_wport_spin.h:68-188 | With crashes at any step, a process in the critical or exit code is named by the status word, so there is at most one. |
| `WPortLock.HeldUntilRelease` | src/common/jj_ab_spin/jj_ab_wport_spin.h:68-188 | With crashes, the status word keeps naming its owner until the period ends. |
| `WPortLock.ReEntry` | src/common/jj_ab_spin/jj_ab_wport_spin.h:68-188 | With crashes, nobody else is inside between a crash inside and the return of that process. |
| `WPortLock.PromotionInItsPeriod` | src/common/jj_ab_spin/jj_ab_wport_spin.h:93-120 | With crashes, a promotion whose compare-and-swap would succeed read its snapshot in the current free period. |
| `WPortLock.NamedProcessIsPresent` | src/common/jj_ab_spin/jj_ab_wport_spin.h:93-188 | Without crashes the status word never names a process that is absent. |
| `WPortLock.NoStrandedWaiter` | src/common/jj_ab_spin/jj_ab_wport_spin.h:93-188 | Without crashes, whenever the lock is free and a bit is set, some process in promote is about to read the word or holds a current snapshot. |
| `WPortLock.HandOver` | src/common/jj_ab_spin/jj_ab_wport_spin.h:93-120 | A hand-over in a free period begun after w registered picks w or shrinks the cyclic distance to w. |
| `WPortLock.BypassMeasure` | src/common/jj_ab_spin/jj_ab_wport_spin.h:93-188 | Hand-overs so far plus the remaining distance to a waiting w never exceed the distance at the start. |
| `WPortLock.BoundedBypass` | src/common/jj_ab_spin/jj_ab_wport_spin.h:93-188 | A waiting process is overtaken fewer times than there are ports. |
| `WPortLock.NamedGoesThrough` | src/common/jj_ab_spin/jj_ab_wport_spin.h:68-188 | While the word names a process that does not crash, each of its own steps brings it nearer to its release through the critical section, which is at most fourteen steps away. |
| `WPortCalls.EnterAlone` | src/common/jj_ab_spin/jj_ab_wport_spin.h:135-173 | A process the word names is inside and leaves no mark; any other registers, hands a free word to the next registered process, and is inside if that is itself and waits if not. |
| `WPortCalls.KeepsWaiting` | src/common/jj_ab_spin/jj_ab_wport_spin.h:150-173 | Without an abort signal a process that is not named waits, and changes nothing. |
| `WPortCalls.AbortAlone` | src/common/jj_ab_spin/jj_ab_wport_spin.h:122-173 | A process that gives up is no longer registered; a free word names the next registered process, or this one if there is none; it is inside if it is named after all, and out if not. |
| `WPortCalls.ExitAlone` | src/common/jj_ab_spin/jj_ab_wport_spin.h:176-188 | The process is out and no longer registered, the sequence counter is one higher, and the word names the next registered process, or is free under the new tag if there is none. |
| `WPortCalls.RecoverAlone` | src/common/jj_ab_spin/jj_ab_wport_spin.h:67-77 | Recovery leaves the word as it is, and takes the registration back if and only if the word names the process. |
| `WPortCalls.RecoverThenEnter` | src/common/jj_ab_spin/jj_ab_wport_spin.h:67-173 | A process that crashed while the word named it is inside again after recovery and the next entry. |
| `TokenLock.MutualExclusion` | src/common/jj_ab_spin/jj_abortable_spin.h:110-342 | With crashes and arbitrary min-array contents, at most one process is in the critical or exit code. |
| `TokenLock.HeldUntilRelease` | src/common/jj_ab_spin/jj_abortable_spin.h:110-342 | With crashes, the status word keeps naming its owner until the period ends. |
| `TokenLock.ReEntry` | src/common/jj_ab_spin/jj_abortable_spin.h:110-342 | With crashes, nobody else is inside between a crash inside and the return of that process. |
| `TokenLock.PromotionInItsPeriod` | src/common/jj_ab_spin/jj_abortable_spin.h:145-219 | With crashes, a promotion whose compare-and-swap would succeed read its snapshot in the current free period. |
| `TokenLock.NamedGoesThrough` | src/common/jj_ab_spin/jj_abortable_spin.h:110-342 | While the word names a process that does not crash, each of its own steps brings it nearer to its release through the critical section, which is at most thirteen steps away. |
| `TokenLock.TokenStep` | src/common/jj_ab_spin/jj_abortable_spin.h:240-280 | The token counter moves by one, for the process that draws its value and for nobody else, and always when that value is still current. |
| `TokenLock.EarlierDrawsLess` | src/common/jj_ab_spin/jj_abortable_spin.h:240-280 | With crashes, a process that has drawn its token has a smaller one than any process that reads the counter later. |
| `TokenCalls.EnterAlone` | src/common/jj_ab_spin/jj_abortable_spin.h:240-320 | A process the word names is inside; any other draws the next token, hands a free word to whom the min-array answers, and is inside if that is itself and waits if not. |
| `TokenCalls.KeepsWaiting` | src/common/jj_ab_spin/jj_abortable_spin.h:282-320 | Without an abort signal a process that is not named waits, and changes nothing. |
| `TokenCalls.AbortAlone` | src/common/jj_ab_spin/jj_abortable_spin.h:221-238 | A free word names whom the min-array answers, or this process if it answers nobody; it is inside if it is named after all, and out if not. |
| `TokenCalls.ExitAlone` | src/common/jj_ab_spin/jj_abortable_spin.h:323-342 | The process is out, the sequence counter is one higher, and the word names whom the min-array answers, or is free under the new tag. |
| `TokenCalls.RecoverThenEnter` | src/common/jj_ab_spin/jj_abortable_spin.h:110-320 | A process that crashed while the word named it is inside again after recovery and the next entry. |
| `TtasLock.ComposeInjective` | src/common/tatas/tatas_spin.h:36-40 | Lock words of different process and generation pairs differ, and none is the free word. |
| `TtasLock.MutualExclusion` | src/common/tatas/tatas_spinlock_kern.h:24-162 | Over crashes, restarts and transfers, at most one live process is in the critical section and the word is its own. |
| `TtasLock.DeadHolderIsTransferred` | src/common/tatas/tatas_spinlock_kern.h:119-162 | A dead holder's word changes only by the compare-and-swap of a recovering process, to that process's own word. |
| `TtasLock.ReadIsDead` | src/common/tatas/tatas_spinlock_kern.h:119-162 | When the guard on recovery holds, the word read for taking over has a dead holder. |
| `TtasLock.TakeOverExact` | src/common/tatas/tatas_spinlock_kern.h:119-162 | Over all runs in which recovery reads at any time, exclusion holds throughout if and only if no take-over finds the word of a holder that still runs. |
| `TtasLock.TwoHolders` | src/common/tatas/tatas_spinlock_kern.h:119-162 | There is such a run with two processes in the critical section. |
| `TtasLock.RecoveryAlone` | src/common/tatas/tatas_spinlock_kern.h:119-162 | An undisturbed recovery ends inside with the word its own if and only if it finds the word unlocked, its own in any generation, or held by a process of the dead machine; otherwise it ends outside and leaves the word. |
| `TtasLock.RecoveryExact` | src/common/tatas/tatas_spinlock_kern.h:119-162 | In any run, between any steps of others, recovery ends inside if and only if the word it read is one of these three and is there again at its swap; otherwise its steps leave the word. |
| `TtasLock.LockAlone` | src/common/tatas/tatas_spinlock_kern.h:24-37 | An undisturbed lock succeeds if and only if it finds the word unlocked or its own; otherwise it spins and leaves the word. |
| `TtasLock.LockThenUnlock` | src/common/tatas/tatas_spinlock_kern.h:24-60 | Locking a free lock and unlocking it restores the word and every process. |
| `QueuedSpinlock.TailReadsBack` | lupin_lock_benchmark/linux/queued_spinlock.h:87-104 | Decoding an encoded tail gives the same node, and the code leaves the lock and pending bytes clear. |
| `QueuedSpinlock.OneHolderOnePending` | lupin_lock_benchmark/linux/queued_spinlock.h:251-481 | In every interleaving at most one thread holds and one is pending, and the two bytes are set exactly then. |
| `QueuedSpinlock.TailIsLastWaiter` | lupin_lock_benchmark/linux/queued_spinlock.h:155-164 | The tail names the last waiter of the queue, or none when it is empty. |
| `QueuedSpinlock.QueueMoves` | lupin_lock_benchmark/linux/queued_spinlock.h:258-464 | A step adds a thread at the back by its tail exchange, removes the front when it gets the lock, or leaves the queue alone. |
| `QueuedSpinlock.QueueIsFifo` | lupin_lock_benchmark/linux/queued_spinlock.h:258-464 | Threads that got the lock from the queue did so in the order of their tail exchanges. |
| `SpinlockProgress.EverybodyCanGetIn` | lupin_lock_benchmark/linux/queued_spinlock.h:251-481 | From every state of every run there is a way to go on in which a given thread gets the lock, so no waiter is ever stuck or forgotten. |
| `SpinlockProgress.WhoIsNext` | lupin_lock_benchmark/linux/queued_spinlock.h:251-481 | A thread gets the lock only when nobody holds it; if one is pending it is that one, and else, if the queue is not empty, it is its head. |
| `SpinlockCalls.AcquirePending` | lupin_lock_benchmark/linux/queued_spinlock.h:258-326 | A thread that finds the lock held and nobody waiting becomes the pending one and stays out of the queue. |
| `SpinlockCalls.WaitsOutHandOver` | lupin_lock_benchmark/linux/queued_spinlock.h:258-272 | A thread that finds a hand-over in progress waits for its end and takes no other way in. |
| `SpinlockCalls.AcquireQueued` | lupin_lock_benchmark/linux/queued_spinlock.h:258-464 | A thread that finds a tail, or a holder and a pending one, queues up last with a clean node that the tail names. |
| `SpinlockCalls.AcquireThenRelease` | lupin_lock_benchmark/linux/queued_spinlock.h:466-481 | Acquiring a free lock and releasing it leaves it free, with all other threads and nodes as they were. |
| `MpscQueue.NoOverwrite` | driver/src/mpsc_queue.c:33-57 | A slot is empty whenever the producer holding its ticket writes it. |
| `MpscQueue.DequeuedInTicketOrder` | driver/src/mpsc_queue.c:59-79 | Dequeued values are a prefix of the values in ticket order. |
| `MpscQueue.StoredIsThere` | driver/src/mpsc_queue.c:33-79 | A stored value not yet dequeued is in its slot, and is the next one out when its turn comes. |
| `MpscQueue.CountIsExact` | driver/src/mpsc_queue.c:33-79 | The counter equals undecided producers, ticket holders, undequeued tickets and a pending decrement; without the undecided it is at most the capacity. |
| `MpscQueue.RefusedIfFull` | driver/src/mpsc_queue.c:33-57 | In every run an enqueue is refused if and only if all places were held when it claimed one. |
| `MpscQueue.RefusalLeavesQueue` | driver/src/mpsc_queue.c:33-57 | A refused enqueue leaves the queue as it found it. |
| `MpscQueue.EnqueueThenDequeue` | driver/src/mpsc_queue.c:33-79 | A value enqueued into a queue with nothing undequeued and a free place is the next one out. |
| `Futex.WaitersExact` | driver/src/cxl_futex_waitwake.c:198-357 | The waiter count equals queued tasks plus tasks and wakers in flight. |
| `Futex.NoLostWakeUp` | driver/src/cxl_futex_waitwake.c:588-662 | After a waker stored and completed with wake-all, any task queued on that word loaded it no earlier than that store. |
| `Futex.WakeNextExact` | driver/src/cxl_futex_waitwake.c:632-662 | A completed waker that wakes one removed at most one task, and if it removed none, every task queued on that word loaded it no earlier than the waker's store. |
| `Futex.WokenWasQueued` | driver/src/cxl_futex_waitwake.c:588-662 | Every task a waker counts was queued on its word and left the list in that step. |
| `Futex.UnqueueIsSafe` | driver/src/cxl_futex_waitwake.c:217-256 | A task that removes itself from the list is still on it. |
| `Futex.WaitsOnValue` | driver/src/cxl_futex_waitwake.c:376-399 | In every run a queued task expected the value its word had in the version it loaded, and a refused one did not; while that version is current the word has, or has not, that value. |
| `Futex.ChangedSinceLoad` | driver/src/cxl_futex_waitwake.c:376-399 | If the word of a queued task no longer has the value it expects, it was stored to after the task loaded it. |
| `Futex.QueuedExpectsWord` | driver/src/cxl_futex_waitwake.c:588-662 | When the last store to a word was by a waker that has completed with wake-all, or woke one and found nobody, everybody queued on the word expects exactly its present value. |
| `FutexCalls.WaitAlone` | driver/src/cxl_futex_waitwake.c:307-399 | A wait goes to sleep in the queue, counted, if the word has the value it expects; otherwise it is out again with count and queue as before. |
| `FutexCalls.GiveUpAlone` | driver/src/cxl_futex_waitwake.c:198-256 | A task that gives up is out, and queue and count are without it. |
| `FutexCalls.RetryLeaves` | driver/src/cxl_futex_waitwake.c:217-256 | A task that was woken while it waited for the bucket lock leaves without touching queue or count. |
| `FutexCalls.WakeAlone` | driver/src/cxl_futex_waitwake.c:588-662 | A wake stores its value, takes every task on the word out of the queue, or the first one only, clears the lock pointer of exactly these and gives back their counts. |

## Left out

- PoolDriver.Pool.Allocate: requires a free slot; the refill branch that reserves a second block for more slots is not modelled, nor its INIT_OBJ_ALLOC_RECS entry.
- PoolDriver.Pool.FindAllocation: requires a free slot when it would allocate, for the same reason.
- CrashRecovery.NextUpdateCanStart: requires that not both of two different earlier logs are longer than this update, which holds for any history of allocations and frees.
- PoolHistory.PoolSurvives: frees are of an object that is the only one or between two others, with its own offset and length; by ObjectFree.FreeExact the others leave no pool.
- CrashRecovery.CrashAtomic: erasing a whole log entry is one store, although the source assigns a struct of several words.
- BuddyTree.Tree.constructor: tree order at most 31, since the source shifts a 32-bit one.
- WPortLock.MutualExclusion: sequence numbers and periods are unbounded, so wrap-around of the tag is not modelled; setting and unsetting a bit is one step.
- TokenLock.MutualExclusion: tokens and sequence numbers are unbounded; the min-array returns any value, so nothing is claimed about its linearizability, nor about the order in which tokens are served.
- TtasLock.MutualExclusion: holds for runs in which recovery reads the word while the old machine is down or as the restarted machine's first lock step.
- QueuedSpinlock.QueueIsFifo: one node per thread, so nesting in interrupt contexts is not modelled.
- MpscQueue.DequeuedInTicketOrder: producers never enqueue -1, the value that marks an empty slot.
- Futex.NoLostWakeUp: one hash bucket; the place at which a task is inserted is left open, so priorities are not modelled.
- Growing, shrinking, resizing, reallocation, range reservation, `buddy_is_free` and fragmentation of the buddy allocator.
- Cache-line flush ranges, the bucket ranges that bit operations return for flushing, and the dirty-bit compare-and-swap of the cache-line-granular build.
- The lookup tables and loops behind `popcount_byte`, `highest_bit_position` and `ceiling_power_of_two`: taken by meaning.
- The checksum function: taken as ideal.
- Robust-list handling on task death and the deferred wake-up queue of the futex.
- `osq_lock`, `rmcs`, the circular queue, the hash index and the priority list.
- Control groups, netlink, ioctl dispatch, interrupts, memory mapping, the failure detector, and the Python and Rust tooling.
