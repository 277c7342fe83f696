# A verified model of hplf-malloc

hplf-malloc is a slab allocator in C with per-thread caches. Freed small blocks travel between threads
through one shared list per size class, which exists in a lock-free and a mutex version; a quiescent
trimmer returns wholly free slabs to the operating system, and each thread's cache has a lifecycle from
setup to thread exit. This project models those layers and two of the repository's client protocols, and
proves what they promise.

## How the project is organised

| file | what it models |
|---|---|
| `Sequences.dfy`, `Chains.dfy` | stock definitions; null-terminated chains through a `next_free` map |
| `TransferSpec.dfy`, `TransferMemory.dfy` | the atomic per-class object that both transfers refine, and what both take from their callers |
| `LockFree.dfy`, `LockFreeRuns.dfy`, `AbaWitness.dfy` | the compare-exchange stack as a machine of any number of threads |
| `MutexTransfer.dfy`, `MutexRuns.dfy` | the mutex transfer as a machine, lock, tail link, head and unlock apart, and its whole calls |
| `SizeClasses.dfy`, `CacheSpec.dfy` | the class table and the cache operations as functions |
| `HeapLists.dfy`, `HeapCache.dfy`, `HeapTrim.dfy` | the same lists, the cache, slab creation and the trimmer as heap objects changed in place |
| `SlotPools.dfy`, `SlotAllocator.dfy` | where every slot is; what a client sees |
| `CachedAllocator.dfy`, `CachedInvariant.dfy`, `CachedResults.dfy` | the cached variant as a machine of any number of threads |
| `CachedCalls.dfy`, `CachedProgress.dfy` | what its whole calls do whatever other threads do meanwhile, and that no call hangs |
| `LockedAllocator.dfy` | the locked variant as a machine, and its space bound |
| `CachedSpace.dfy`, `ExcessSlabWitness.dfy` | the space bound of the cached variant, when it meets that of the locked one, and a run that breaks it |
| `SnapshotOracle.dfy` | the allocator's own consistency check |
| `CheckedMath.dfy`, `Layout.dfy` | 64-bit checked arithmetic; slab and large-block layouts for any header sizes |
| `HeapSpec.dfy`, `ByteMemory.dfy`, `ByteSteps.dfy`, `ByteCalls.dfy`, `ByteWitness.dfy` | addresses and bytes: live payloads, `calloc`, `realloc`, leaked mappings, and a concrete run |
| `SlotBytes.dfy`, `CachedBytes.dfy`, `LockedBytes.dfy` | each variant together with addresses and bytes, down to the client's map |
| `JobQueue.dfy`, `WorkerPool.dfy`, `WorkerPoolResults.dfy` | the closeable bounded queue and the worker pool around it |
| `MailboxRing.dfy`, `MailboxRingResults.dfy` | the three-barrier mailbox ring |

The layers meet at shared specifications. Both transfers refine `TransferSpec`, so the cached allocator is
built on its atomic publish and detach. The heap classes are proved against the functions of `CacheSpec`,
which the cached machine also uses. Both allocator variants refine `SlotAllocator`. `CachedBytes` and
`LockedBytes` run each variant together with the world of `ByteSteps`, every request with its size and every
slab with its computed layout, and prove that along a whole run each step is a byte-level step and one
permitted action on the client's map from live pointers to bytes in `HeapSpec`.

## Assumptions

- Threads interleave step by step. The C code pairs a release compare-exchange with an acquire exchange;
  that pairing is assumed to make the interleaving view right.
- Mutex, condition-variable and barrier calls succeed. Creating the thread-specific key, mapping a cache
  descriptor and registering it may each fail.
- The operating system answers a map request with an aligned range apart from every mapping, or refuses;
  any unmap may fail and then changes nothing.
- Clients follow the interface: they free and resize only live pointers they own, write only the bytes
  they asked for, and call the trimmer with no other call in progress where a result says so.
- Counts of blocks and slabs are unbounded numbers. Sizes, addresses, checksums and the subtractions of
  refill are 64-bit.

Where the code and a comment disagree the model follows the code: the comment at src/allocator.c:76 says
that rechecking under the mutex avoids excess maps, but the mutex is released before the remainder is
published, and the recheck does not see caches and hands. `ExcessSlabWitness` gives, for every class and slot
count, a run in which two threads each map a slab while no block is live. `CachedSpace` proves what does
hold: in every run all slabs of a class but one are paid for by slots live, cached or in hand; a new slab is
within the bound of the locked variant if and only if no other thread caches or carries a block of the class;
and with one call at a time and the other caches flushed that bound holds in every run.

## Model

| member | source | states |
|---|---|---|
| Chains.ChainUnique | src/transfer_list.h:22-38 | a pointer starts at most one null-terminated chain, so a traversal has one answer |
| Chains.ChainAcyclic | src/transfer_list.h:22-38 | a chain that reaches null visits no block twice |
| TransferSpec.StepWellFormed | src/transfer_mutex.c:15-44 | invoke, publish-all, take-all, return and give keep every block in exactly one place: one stack, one call, or one private owner |
| TransferSpec.DetachTookStack | src/transfer_mutex.c:32-44 | in every legal history, what a detach in progress holds is the whole stack as it stood when the detach took it |
| LockFree.Simulation | src/transfer_atomic.c:41-111 | a successful compare-exchange is one atomic prepend of the whole batch, an exchange one take-all, and loads, links, failures, spurious failures and traversal steps are invisible |
| LockFreeRuns.LockFreeRefinesAtomic | src/transfer_atomic.c:54-110 | every run of any number of publishers and detachers is a legal history of the atomic object, and memory represents the object at every position |
| LockFreeRuns.SharedChainsAreSound | src/transfer_atomic.c:54-110 | in every reachable state each head's chain ends in null, repeats no block, and shares none with another head or with a batch in flight |
| LockFreeRuns.BatchesAreApart | src/transfer_atomic.c:54-110 | a batch in flight, published or traversed, repeats no block, shares none with any other batch, and holds no block that a thread owns between calls |
| LockFreeRuns.StaleHeadIsNeverDereferenced | src/transfer_atomic.c:53-87 | every link any step reads or writes belongs to a block only the acting thread owns, on no shared chain; a stale observed head is only copied and compared |
| LockFreeRuns.WritesOnlyTouched | src/transfer_atomic.c:41-111 | a step changes a link only at a block it is said to touch |
| LockFreeRuns.ReadsOnlyTouched | src/transfer_atomic.c:41-111 | what a step does depends on links only at the blocks it is said to touch |
| LockFreeRuns.DetachReturnsWholeStack | src/transfer_atomic.c:93-111 | a detach hands back exactly the stack as it stood at its exchange, with first, last and count, whatever ran during the traversal |
| LockFreeRuns.FailuresPaidByOthers | src/transfer_atomic.c:56-87 | in any window, a publisher's genuine compare-exchange failures number at most the head changes other threads made there, and one more if its observation was already out of date at the start |
| LockFreeRuns.CallsNeverWait | src/transfer_atomic.c:41-111 | in every reachable state each publish or detach in progress can take a step, whatever the other threads have done |
| AbaWitness.AbaSucceedsHarmlessly | src/transfer_atomic.c:53-81 | a concrete ABA run: the head leaves and returns, the stale compare-exchange succeeds, and the stack is still right |
| MutexTransfer.ExclusionStep | src/transfer_mutex.c:22-26 | at most one thread is inside the critical section, at every step |
| MutexTransfer.Simulation | src/transfer_mutex.c:15-44 | every step under the mutex is matched by one step of the same atomic object |
| MutexTransfer.MutexRefinesAtomic | src/transfer_mutex.c:15-44 | every run under the mutex is a legal history of the object the lock-free runs obey |
| MutexRuns.DetachReturnsWholeStack | src/transfer_mutex.c:32-44 | a detach hands back exactly the class as it stood when its head was cleared, with first, last and count, whatever ran during the walk outside the mutex |
| MutexRuns.DetachCallTakes | src/transfer_mutex.c:32-44 | from its first step to its last a detach call clears the head of its class and ends by handing back what it took |
| MutexRuns.PublishCallCommits | src/transfer_mutex.c:15-30 | from its first step to its last a publish call links its whole batch in front of its class |
| MutexRuns.CallsGoOn | src/transfer_mutex.c:15-44 | in every reachable state a call in progress can step, or waits for the mutex while its holder can step |
| SizeClasses.ClassFor | src/size_class.c:8-28 | the table search finds the smallest class that holds the size, for sizes 1 to 4096 and no others |
| SizeClasses.ClassOf | src/size_class.c:8-28 | the search as a function: some class exactly for sizes 1 to 4096, and then the smallest that fits |
| CacheSpec.FirstNonempty | src/thread_cache.c:128-136 | the lowest nonempty class, or none when every class is empty |
| CacheSpec.NoEvictionMeansWithinCaps | src/thread_cache.c:99-138 | the eviction choice is empty exactly when the current class and the byte total are within their caps |
| CacheSpec.OneEvictionSuffices | src/allocator.c:261-270 | after one store into a cache within its caps, one eviction from the current class restores both caps and none follows |
| CacheSpec.EvictionsEndWithinCaps | src/allocator.c:261-270 | from any cache the eviction loop ends with class and total within caps, and each class keeps a suffix of its list |
| CacheSpec.EvictionsConserve | src/allocator.c:261-270 | class by class, cache and shared list together hold the same blocks before and after the loop |
| CacheSpec.EvictionMeaning | src/thread_cache.c:99-138 | one eviction keeps the last 32 blocks of a class above its cap, or takes the whole current class, or when that is empty the lowest nonempty class whole |
| CacheSpec.EvictionsEffect | src/allocator.c:261-270 | the whole effect of the loop from any cache: the last 32 blocks of the class stay when the total then fits; otherwise the class goes, and other whole classes lowest first, no more than needed; what leaves is in front of the shared lists in order |
| CacheSpec.FreeEffect | src/allocator.c:241-270 | a free into a cache within its caps keeps the block when both caps allow, passes it on alone when its class holds 32, and otherwise passes on the whole class with it |
| CacheSpec.FreeKeepsCaps | src/allocator.c:241-270 | a free into a cache within its caps leaves it within its caps |
| CacheSpec.RefillKeepsCaps | src/thread_cache.c:44-57 | within the caps the two unsigned subtractions do not wrap, and what a refill accepts keeps both caps |
| CacheSpec.RefillIsFullest | src/thread_cache.c:44-57 | a refill is as large as it may be: at most 16 blocks within both caps, and one more would exceed one of these limits unless everything was accepted |
| CacheSpec.ObtainConserves | src/allocator.c:105-119 | with blocks available, one is always obtained, even when the byte cap lets the refill accept none; returned block, cached blocks and remainder are the available blocks in order |
| CacheSpec.ObtainKeepsAll | src/allocator.c:105-119 | with a cache, what is kept and handed out together is at most 16 blocks and as many as the byte cap allows, unless nothing is left to publish |
| CacheSpec.DropKeepsCaps | src/thread_cache.c:60-82 | taking leading blocks out keeps a cache within its caps |
| HeapLists.ChainUnique | src/transfer_list.h:30-34 | heap links from a head visit one sequence only |
| HeapLists.ChainAcyclic | src/transfer_list.h:30-34 | a null-terminated heap chain repeats no block |
| HeapLists.TransferList.FromChain | src/transfer_list.h:22-38 | walking a detached chain yields its head, its last block and its length |
| HeapLists.TransferList.TakePrefix | src/transfer_list.h:41-70 | cuts a chain in place into its exact prefix and suffix, both null-terminated, with right first, last and count on both sides |
| HeapLists.NthNode | src/transfer_list.h:54-58 | following `taken - 1` links ends at the last block of the prefix |
| HeapLists.CutAfter | src/transfer_list.h:64-65 | clearing one link leaves two null-terminated chains |
| HeapCache.ClassChains.Prepend | src/transfer_mutex.c:15-30 | a whole private list goes in front of its class, other classes unchanged, the descriptor is cleared |
| HeapCache.ClassChains.Detach | src/transfer_mutex.c:32-44 | the whole class list is taken and described, the class is left empty |
| HeapCache.ClassChains.Push | src/thread_cache.c:33-34 | one block goes in front of its class, other classes unchanged |
| HeapCache.ClassChains.Pop | src/thread_cache.c:20-22 | the first block of a class is unlinked, other classes unchanged |
| HeapCache.ClassChains.Split | src/thread_cache.c:74-78 | the leading blocks of a class move out in order, other classes unchanged |
| HeapCache.ThreadCache.Take | src/thread_cache.c:10-26 | returns the first block of the class or null, with counts still chain lengths and the byte total still the sum of count times capacity |
| HeapCache.ThreadCache.Store | src/thread_cache.c:28-37 | adds one block in front with the same two invariants |
| HeapCache.ThreadCache.Refill | src/thread_cache.c:39-58 | accepts exactly the prefix the refill limit and both caps allow, no block fewer, and leaves the rest, null-terminated and described |
| HeapCache.ThreadCache.RefillRoom | src/thread_cache.c:45-55 | the limit is the least of 16, the room below the block cap and the room below the byte cap, with the source's unsigned arithmetic |
| HeapCache.ThreadCache.ExtractClass | src/thread_cache.c:60-82 | moves the leading blocks out, or reports that there is none to move; counts and bytes stay exact without underflow |
| HeapCache.ThreadCache.Restore | src/thread_cache.c:84-97 | puts a list in front of its class with counts and bytes exact, and clears the list |
| HeapCache.ThreadCache.ExtractEviction | src/thread_cache.c:99-138 | evicts exactly when the class or the total is above its cap: all but 32 blocks of a class above its cap, else the class whole, else the first nonempty class whole |
| HeapCache.ThreadCache.FirstNonempty | src/thread_cache.c:128-136 | the ascending scan finds the first nonempty class or none |
| HeapCache.ThreadCache.Snapshot | src/thread_cache.c:140-168 | for null-terminated chains the check answers true exactly when counts and byte total are right |
| HeapCache.ThreadCache.ExtractThenRestore | src/thread_cache.c:60-97 | putting back what was extracted gives the identical chains, heads, links, counts and byte total |
| HeapCache.EvictOnce | src/allocator.c:262-270 | one turn of the loop moves the evicted prefix from the cache to the front of the shared list of its class |
| HeapCache.EvictAll | src/allocator.c:262-270 | the loop terminates from any well-formed cache; what it leaves and what it publishes are stated class by class, block by block |
| HeapCache.PublishSingle | src/allocator.c:249-259 | a thread without a cache publishes the freed block as a list of one |
| HeapCache.FreeSmall | src/allocator.c:241-270 | a small free on heap objects: kept, passed on alone, or passed on with its whole class, exactly as the caps say; without a cache the block is published; its requested size is cleared |
| HeapCache.FlushAll | src/thread_cache_lifecycle.c:55-70 | a flush empties every class of the cache into the shared lists in order and returns the number of blocks published |
| HeapCache.ObtainBlock | src/allocator.c:105-119 | refill, take and direct hand-out on heap objects give exactly the specified block, cache and remainder |
| HeapTrim.CreateSlab | src/slab.c:52-64 | the loop builds one fresh block per slot, chained last slot first and null-terminated |
| HeapTrim.SlabFreeCount | src/allocator.c:376-390 | the count is the number of distinct blocks of the slab in its class list |
| HeapTrim.DetachSlabBlocks | src/allocator.c:392-412 | splits the list in place into the slab's blocks and the others, both reversed and null-terminated |
| HeapTrim.JoinFreeLists | src/allocator.c:414-428 | appends the second chain to the first |
| HeapTrim.OtherSlabsUntouched | src/allocator.c:467-488 | releasing and reordering for one slab does not change what another slab has in the list |
| HeapTrim.SplitJoinPermutes | src/allocator.c:477-492 | splitting a list by slab and joining the parts only reorders it |
| HeapTrim.ReleaseRemovesFromClass | src/allocator.c:477-488 | releasing one more slab removes exactly its blocks from every free list |
| HeapTrim.WhollyFreeIffEverySlot | src/allocator.c:376-390 | the count equals the slot count exactly when every slot of the slab is in the list |
| HeapTrim.Registry.Add | src/allocator.c:87-88 | a new slab goes in front of the registry |
| HeapTrim.Registry.Unlink | src/allocator.c:479 | storing through the link to the link removes the slab from the registry sequence |
| HeapTrim.Registry.Relink | src/allocator.c:493-495 | after a failed unmap the slab is back where it was |
| HeapTrim.Release | src/allocator.c:472-495 | a wholly free slab leaves both structures, or after a failed unmap is back in both with its list reordered |
| HeapTrim.Visit | src/allocator.c:457-496 | one slab is released exactly when it was wholly free in the original lists and its unmap succeeds; otherwise the link moves on |
| HeapTrim.Trim | src/allocator.c:456-508 | for any unmap failures the loop terminates with exactly the wholly free slabs whose unmap succeeds gone from the registry, the others in order, each free list a permutation of the original minus their blocks, and returns the sum of the released lengths, or the largest word when that does not fit |
| HeapTrim.TrimCached | src/allocator.c:446-509 | the same for the shared lists, detached before and published after |
| SlotPools.ExactlyOnePlace | src/allocator.c:47-131 | in a sound state a live slot is in no list and any other registered slot is in one list, once |
| SlotPools.MoveKeepsSound | src/transfer_mutex.c:15-44 | moving a prefix between places keeps every slot in one place |
| SlotPools.GrantKeepsSound | src/allocator.c:129-131 | handing a slot to the client keeps every slot in one place |
| SlotPools.ReclaimKeepsSound | src/allocator.c:250-261 | taking a slot back keeps every slot in one place |
| SlotPools.AddSlabKeepsSound | src/allocator.c:87-89 | a new slab enters with all its slots in the creator's hand and nothing else moved |
| SlotPools.FullCountIffAllSlots | src/allocator.c:376-390 | for a duplicate-free list the slab's count is its slot count exactly when all its slots are listed |
| SlotPools.SweepSparesUsedSlabs | src/allocator.c:467-488 | a sweep spares every slab with a slot that is live or in any list the sweep does not hold |
| SlotPools.SweepKeepsSound | src/allocator.c:456-496 | a sweep keeps every remaining slot in one place |
| SlotAllocator.SweepShrinks | src/allocator.c:467-488 | a sweep removes only slabs without live slots |
| CachedInvariant.InvStep | src/allocator.c:43-131 | every step of every thread keeps the invariant: one place per slot, caches within caps, hands empty but for what the call carries, one lock holder, one owner per descriptor; what calls achieve is stated in the rows of CachedCalls |
| CachedInvariant.PoolsStep | src/allocator.c:47-131 | every step of every thread keeps each registered slot in exactly one place |
| CachedInvariant.StepUndisturbed | src/allocator.c:43-131 | a step touches no other thread's cache, hand or program position, and only its own lock |
| CachedInvariant.ObtainedAtGot | src/allocator.c:105-119 | whenever a thread reaches refill it has blocks and an empty class, so a block comes out and the cache stays within its caps |
| CachedInvariant.DescriptorsStep | src/thread_cache_lifecycle.c:74-114 | every mapped descriptor belongs to exactly one thread, or its unmap failed |
| CachedResults.EverySlotInOnePlace | src/allocator.c:47-131 | in every reachable state each registered slot is live and in no list, or in exactly one cache, hand or shared list of its class, once |
| CachedResults.MallocFailsOnlyWithoutSlab | src/allocator.c:65-131 | in no run does a cached small allocation fail except where slab creation fails |
| CachedResults.CachesStayWithinCaps | src/thread_cache.c:99-138 | in every reachable state outside a free's eviction loop every cache is within 32 blocks per class and 64 KiB |
| CachedResults.CachedRefinesSlotAllocator | src/allocator.c:43-131 | every step is a permitted step of the client's view, what is handed out is of the class asked for, and refills, evictions, flushes and exits are invisible |
| CachedResults.LifecycleMovesForward | src/thread_cache_lifecycle.c:175-226 | over any run a thread only moves from uninitialized to active or uncached and from active to uncached, and keeps its descriptor |
| CachedResults.NoBlockDiesWithDescriptor | src/thread_cache_lifecycle.c:74-100 | when a descriptor is about to be unmapped its cache holds no block of any class |
| CachedResults.DescriptorsMatchActiveThreads | src/thread_cache_lifecycle.c:102-114 | with unmaps succeeding, at every quiescent point the mapped descriptors are exactly those of the active threads |
| CachedResults.OneEvictionPerFree | src/allocator.c:261-270 | between two evictions of a thread lies another free by that thread |
| CachedResults.TrimSparesUsedSlabs | src/allocator.c:446-496 | a trim never unmaps a slab with a live, cached or in-transit slot, even if caches were not flushed |
| CachedResults.QuiescentTrimIsComplete | src/allocator.c:446-496 | with all other calls stopped and caches flushed, a slab without live slots is removed exactly when its unmap succeeds |
| CachedResults.CallKeepsClass | src/allocator.c:43-131 | the class of a slow allocation is set at its start and stays until it ends |
| CachedCalls.FlushGivesUpEverything | src/thread_cache_lifecycle.c:55-70 | when a flush that a thread started, by call or by exit, has ended, neither its cache nor its hand holds a block of any class |
| CachedCalls.FlushesMakeTrimComplete | src/allocator.c:446-496 | when every call has ended and every thread with a cache has flushed it and done nothing since, a trim removes a slab without live slots exactly when its unmap succeeds |
| CachedCalls.TrimCallSweeps | src/allocator.c:446-508 | a trim call sweeps the registry before it ends and keeps nothing of what it detached |
| CachedCalls.FreeCallEffect | src/allocator.c:241-270 | whatever other threads do meanwhile, a cached free leaves the thread's cache as it was with the block, as it was without it when the class was full, or without the class when only the byte total was exceeded |
| CachedCalls.MallocCallOutcome | src/allocator.c:43-131 | a slow allocation ends by handing out a block of its class, or by a slab that cannot be mapped after the shared list was found empty under the mutex |
| CachedCalls.SlowMallocRefills | src/allocator.c:105-131 | at its end one block is out, as many as the limits allow are cached, and the rest is in front of the shared list, in their order |
| CachedCalls.DetachTransfers | src/transfer_mutex.c:32-44 | every detach takes the whole shared list of its class into the thread's hand |
| CachedCalls.PublishTransfers | src/transfer_mutex.c:15-30 | every publish puts all that is in hand in front of the shared list of its class |
| CachedCalls.SetupDecides | src/thread_cache_lifecycle.c:175-226 | a thread's first call decides for good whether it has a cache: exactly when the descriptor was registered, until it exits |
| CachedCalls.KeyIsDecidedOnce | src/thread_cache_lifecycle.c:116-127 | the key is created at most once, and after a failure to create it no descriptor is ever mapped |
| CachedProgress.CallsGoOn | src/allocator.c:43-131 | in every reachable state a call in progress can step, or waits for the registry mutex while its holder can step |
| CachedProgress.AnySweepIsPossible | src/allocator.c:456-496 | a trim can sweep whatever unmaps fail |
| CachedProgress.AnyFreshSlabIsMapped | src/allocator.c:76-90 | a slab the system gives is never refused |
| CachedProgress.AnyClassCanBeAskedFor | src/allocator.c:43-65 | an idle thread past its setup can ask for a block of any class |
| CachedProgress.AnyLiveBlockCanBeFreed | src/allocator.c:241-270 | an idle thread past its setup can free any live block, whoever allocated it |
| CachedProgress.CachesCanBeFlushed | src/thread_cache_lifecycle.c:102-114 | an idle thread with a cache can flush it, and can exit |
| CachedProgress.TrimCanStart | src/allocator.c:443-445 | an idle thread can trim when the registry mutex is free |
| CachedSpace.EmptyRecheckCountsAll | src/allocator.c:76-90 | when the recheck finds nothing, every slot of the class is live, cached or in hand, and all are live exactly when no cache and no hand holds one |
| CachedSpace.CachedSpaceBound | src/allocator.c:65-131 | in every run, all slabs of a class but one hold no more slots than were at one time live, cached or in hand |
| CachedSpace.NewSlabIsWithinBoundIff | src/allocator.c:76-90 | a new slab is within the bound of the locked variant if and only if no other thread caches or carries a block of the class at the recheck |
| CachedSpace.UndisputedSpaceBound | src/allocator.c:65-131 | if nothing of the class is cached or carried at any empty recheck, and no other call frees into the class until the new slab's first block is out, slabs times slots is at most the peak of live blocks plus one slab's slots minus one |
| CachedSpace.SerialSpaceBound | src/allocator.c:65-131 | the same bound when, whenever a call may map a slab, it is the only one in progress and the other caches hold no block of the class |
| ExcessSlabWitness.CachedVariantExceedsTheBound | src/allocator.c:76-129 | for any class and slot count, a run of the cached variant maps two slabs of one class although no block is ever live |
| ExcessSlabWitness.SuchSlabsExist | src/slab.h:49-93 | two neighbouring slabs of the smallest class with the layout computed for 16-byte alignment and 4096-byte pages |
| LockedAllocator.LockedRefinesSlotAllocator | src/allocator.c:133-164 | every step of the locked variant is one or two permitted steps of the same client view, and a reused slot is of the class asked for |
| LockedAllocator.GrowthNeedsAllLive | src/allocator.c:142-160 | a slab is made only when every slot of its class is live |
| LockedAllocator.FailureNeedsAllLive | src/allocator.c:142-157 | an allocation fails for want of a slab only when every slot of its class is live |
| LockedAllocator.TrimRemovesIff | src/allocator.c:456-496 | a trim removes a slab exactly when none of its slots is live and its unmap succeeds |
| LockedAllocator.CallsCanRun | src/allocator.c:132-173 | every allocation, growth and free can run: reuse when the class list has a block, failure or growth when it has none |
| LockedAllocator.LockedSpaceBound | src/allocator.c:133-164 | in every run, slabs times slots per slab is at most the peak of live blocks of the class plus slots per slab minus one |
| SnapshotOracle.OracleCountsLiveSlots | src/allocator.c:637-646 | registered minus shared minus locally cached slots is the number of live slots plus those in other caches and hands, so the number of live slots exactly when there are none of these |
| SnapshotOracle.OracleChecksHold | src/allocator.c:610-631 | each listed slot is registered, of its list's class, met once in its own list and never in another |
| CheckedMath.Add | src/checked_math.h:13-21 | succeeds exactly when the sum fits in 64 bits, and then is the sum |
| CheckedMath.Multiply | src/checked_math.h:23-31 | succeeds exactly when the product fits in 64 bits, and then is the product |
| CheckedMath.BitAndBits | src/checked_math.h:43-52 | the bitwise operator used in the masks has a bit exactly where both operands do |
| CheckedMath.MaskTestFindsPowers | src/checked_math.h:43 | the mask test accepts exactly the powers of two |
| CheckedMath.AlignUpMeaning | src/checked_math.h:37-54 | for all 64-bit inputs the mask form is the least multiple at or above the value, and fails exactly when the alignment is no power of two or that multiple does not fit |
| CheckedMath.RoundUpMeaning | src/checked_math.h:61-80 | the remainder form is the least multiple at or above the value, and fails exactly when the multiple is zero or the result does not fit |
| CheckedMath.FormsAgree | src/checked_math.h:37-80 | on powers of two both forms are the same function |
| Layout.SlotCount | src/slab.h:77-78 | the largest number of strides that fit in the usable bytes |
| Layout.SlabLayoutIsSound | src/slab.h:49-93 | every admitted layout keeps both headers clear of payloads, is aligned throughout, and holds as many slots as fit |
| Layout.SlabLayoutExists | src/slab.h:49-93 | a layout exists exactly when the alignment is a power of two, the least multiples for mapping, header, prefix and stride fit in 64 bits, and one slot fits behind the header |
| Layout.SlotFits | src/slab.c:52-54 | every slot's prefix and payload lie inside the mapping, behind the slab header |
| Layout.SlotsAreApart | src/slab.c:52-54 | two slots share no byte of prefix or payload |
| Layout.SlotsAreAligned | src/slab.h:63-72 | in an aligned mapping every block and payload is aligned |
| Layout.LargeLayoutIsSound | src/block.h:78-98 | a large mapping is the least page multiple that holds prefix and payload |
| Layout.LargeLayoutExists | src/block.h:78-98 | a large layout exists exactly when prefix, sum and rounded length all fit in 64 bits |
| Layout.MapLengthIsLayoutLength | src/os_memory.c:127-132 | the second rounding in the map call changes nothing |
| Layout.PayloadRoundTrip | src/block.h:54-72 | the free path recovers the block the malloc path turned into a payload |
| ByteMemory.PayloadInsideMapping | src/block.h:54-62 | a live payload lies in the mapping of its owner, holds the requested bytes, is aligned and not null |
| ByteMemory.PayloadsAreApart | src/slab.c:52-64 | two live payloads, small or large, share no byte |
| ByteMemory.PayloadIsNotMetadata | src/slab.h:77-91 | a live payload contains no slab header and no block prefix |
| ByteSteps.FreeSlotPointerIsFree | src/slab.c:52-54 | the address of a free slot is not the address of any live block |
| ByteSteps.StepKeepsOk | src/allocator.c:175-281 | slab maps, allocations, frees, failed unmaps, trims, stores and retained resizes keep mappings apart and every block in its place |
| ByteSteps.OthersUnchanged | src/allocator.c:175-281 | a step leaves alone every block it is not about: same prefix, same bytes |
| ByteSteps.StepRefinesHeap | src/allocator.c:175-281 | every step is one permitted action on the client's map from live pointers to bytes and has exactly its effect |
| ByteCalls.LivePayloadsAreSafe | src/allocator.c:175-281 | in every reachable world live payloads are pairwise apart, free of all metadata, inside their own mapping and aligned |
| ByteCalls.LeaksAreForever | src/allocator.c:228-239 | a large mapping whose unmap failed stays mapped and is never handed out again |
| ByteCalls.LargeFreeReleases | src/allocator.c:228-239 | freeing a large block removes its mapping when the unmap succeeds, marks it leaked with its length when it fails, and touches no other mapping |
| ByteCalls.LeaksComeFromFailures | src/allocator.c:228-239 | along every run a mapping is leaked only if an earlier free of its large block had a failed unmap |
| ByteCalls.LiveBlocksCanBeFreed | src/allocator.c:200-281 | every live block can be freed, a large one whether or not its unmap succeeds |
| ByteCalls.LargeAllocationIsPossibleIff | src/allocator.c:175-198 | a size above every class can be allocated in a range exactly when it is at most PTRDIFF_MAX and the range has the page-rounded length of prefix and payload |
| ByteCalls.FirstWriteLasts | src/allocator.c:296-299 | what the caller first writes into a new block is there after any steps of other threads |
| ByteCalls.CallocMeaning | src/allocator.c:283-301 | a successful calloc is zero on all count times size bytes, and that product is positive and representable |
| ByteCalls.ReallocMeaning | src/allocator.c:324-361 | a successful realloc, retained or moved, has the new size and agrees with the old block on every byte both have; a moved block is freed |
| ByteCalls.ReallocKeepsPointerIff | src/allocator.c:305-347 | realloc keeps the pointer, and then never fails, exactly when the new size belongs to the slab's class, or is above every class and fits behind the prefix in the mapping |
| ByteCalls.FailedReallocChangesNothing | src/allocator.c:337-353 | a failed realloc, and one for a size above PTRDIFF_MAX, leaves the old block live with its size and bytes |
| ByteCalls.ReallocToZeroFrees | src/allocator.c:333-336 | realloc to size zero returns null, keeps the block as it was until it frees it, and the pointer is not live afterwards unless it is handed out again |
| ByteCalls.ReallocLeavesOthers | src/allocator.c:324-361 | whatever a realloc does, every other block that the other steps leave alone keeps its size and bytes |
| ByteWitness.CallocHappens | src/allocator.c:283-301 | a concrete run from nothing mapped in which calloc(2, 5) succeeds, with 16-byte alignment and 4096-byte pages |
| ByteWitness.ReallocHappens | src/allocator.c:343-347 | the block is then grown in place to 16 bytes |
| ByteWitness.MovedReallocHappens | src/allocator.c:349-360 | and then moved to the next class by a realloc to 20 bytes, while another thread maps a slab |
| ByteWitness.ReallocToZeroHappens | src/allocator.c:333-336 | and the moved block freed by a realloc to size zero |
| SlotBytes.ActionIsEnabled | src/allocator.c:175-281 | what the slot layer permits, with a size of the class asked for and a mapping the system gives, the byte layer can do, and both then see the same slabs and live slots |
| CachedBytes.CoupledStep | src/allocator.c:43-131 | every step of the cached variant, with sizes and mappings, is a step of the byte-level world |
| CachedBytes.CachedRunIsByteRun | src/allocator.c:175-281 | the worlds along any run of the cached variant are a run of the byte-level world from nothing mapped |
| CachedBytes.CachedRefinesHeap | src/allocator.c:175-281 | along every run of the cached variant the client's map starts empty and each step is one permitted action with exactly its effect: a new pointer with as many bytes as asked for, the freed pointer gone, or nothing |
| LockedBytes.CoupledStep | src/allocator.c:132-173 | every critical section of the locked variant is one or two steps of the byte-level world |
| LockedBytes.LockedRunIsByteRun | src/allocator.c:175-281 | the worlds along any run of the locked variant, with those inside critical sections, are a run of the byte-level world |
| LockedBytes.LockedRefinesHeap | src/allocator.c:175-281 | along every run of the locked variant each critical section is one permitted action on the client's map, the one that answers the call |
| JobQueue.Queue.Push | examples/worker_pool.c:144-169 | under the mutex a push appends to the sequence, or is refused when closed, or must wait when full |
| JobQueue.Queue.TakeFirst | examples/worker_pool.c:191-194 | the ring's head slot is the first of the sequence, and the rest stays in order |
| JobQueue.Queue.Pop | examples/worker_pool.c:172-199 | under the mutex a pop removes the first job, or ends when closed and empty, or must wait |
| JobQueue.Queue.ReleaseRemaining | examples/worker_pool.c:218-232 | hands back every remaining job in order and counts them |
| WorkerPool.ExactlyOnceKept | examples/worker_pool.c:144-274 | every step keeps first-in first-out order and each taken job held by one worker or seen, never both |
| WorkerPool.NoneForgottenKept | examples/worker_pool.c:144-215 | every step keeps: a nonempty queue has a worker awake, a blocked producer faces a full queue, a closed queue has no waiter |
| WorkerPool.RecordsStay | examples/worker_pool.c:250-274 | every step keeps: the allocated job records are those queued, held or about to be pushed, each with the payload written for it |
| WorkerPoolResults.ConservedKept | examples/worker_pool.c:513-553 | every step keeps the number of jobs and the checksum modulo 2^64 across queue, workers and producer |
| WorkerPoolResults.NoDeadlock | examples/worker_pool.c:144-199 | in no reachable state before the end do all unfinished threads wait unsignalled: some thread can step, other than by stopping early |
| WorkerPoolResults.StepDecreasesMeasure | examples/worker_pool.c:144-274 | every step but a spurious wakeup decreases the work left |
| WorkerPoolResults.RunsAreBounded | examples/worker_pool.c:144-274 | a run is at most as long as the work at its start and twice its spurious wakeups |
| WorkerPoolResults.EndsWithEverything | examples/worker_pool.c:556-586 | after the join every produced job was consumed and seen exactly once with its payload intact, every job record is freed, none is duplicate, invalid, missing or abandoned, and the checksums agree |
| WorkerPoolResults.AllJobsAreDone | examples/worker_pool.c:513-553 | unless main stops early, all jobs are produced, consumed and seen by the end |
| WorkerPoolResults.NoPushIsRefused | examples/worker_pool.c:144-169 | no push is refused in any run, since only main closes the queue |
| MailboxRing.AlignedKept | benchmarks/workloads.c:731-779 | every step keeps the workers within one barrier generation and the stop choice in its round |
| MailboxRingResults.InvKept | benchmarks/workloads.c:731-779 | every step keeps mailboxes and allocated items accounted for |
| MailboxRingResults.ReceivesFromPredecessor | benchmarks/workloads.c:753-755 | a worker receives exactly what its predecessor made in the same round, not yet freed |
| MailboxRingResults.NothingIsOverwritten | benchmarks/workloads.c:748-753 | when a mailbox is written, what it held was received and freed |
| MailboxRingResults.FreedOnce | benchmarks/workloads.c:755-766 | what a worker frees was not freed before |
| MailboxRingResults.AllLeaveTogether | benchmarks/workloads.c:768-778 | each worker that has left did so at the end of the round of the stop choice, every other is at most one barrier short of that, and once all have left every item made is freed |
| MailboxRingResults.NeverMoreThanOneBarrierApart | benchmarks/workloads.c:754-774 | no worker is more than one barrier ahead of another |
| MailboxRingResults.RingNeverBlocks | benchmarks/workloads.c:754-774 | while a worker is in the ring some worker can step |
| MailboxRingResults.FailureEndsTheRound | benchmarks/workloads.c:743-778 | a failed allocation ends the ring in its own round: no worker starts another |
| MailboxRingResults.StopsExactlyForAReason | benchmarks/workloads.c:768-773 | the stop choice is made exactly when the first worker finds the clock late or an allocation failed |
| MailboxRingResults.StopEndsTheRound | benchmarks/workloads.c:768-778 | once made, the stop choice stays and no worker goes beyond its round |

## Left out

- The real `mmap`, `munmap` and `sysconf` calls and the fault counters of src/os_memory.c: the boundary is a nondeterministic map and unmap.
- Weak memory: release and acquire orderings are an assumption, not part of the model.
- `errno` values, null out-parameters and the hooks that only count: no state of the allocator depends on them.
- Slot address checks of the consistency oracle (src/allocator.c:522-542): a slot is a slab and an index there, so only membership and counts are modelled.
- HeapTrim.TrimCached: the source describes the remaining chains with `from_chain` on a local array; the model moves them class by class through the same description.
- HeapCache.FlushAll: assumes that each class count fits in a word, as the source's counters do.
- CheckedMath.Add: the null-result check is left out, since results are values.
- ByteCalls.CallocMeaning: `memset` and `memcpy` are single steps; other threads cannot run inside them, which is harmless because only the owner may touch the block.
- CachedBytes.CachedRefinesHeap: each step may rewrite metadata at will, so the links and prefixes of free blocks in memory are not tied to the lists here; the heap classes and the transfers model those.
- CachedResults.MallocFailsOnlyWithoutSlab: the registry mutex is assumed to lock, so its error return is not a step.
- Worker threads that fail to start: they appear only as a main thread that closes at once; failing pthread calls inside the queue are left out.
- MailboxRingResults.ReceivesFromPredecessor: the mailboxes start null, as in the warm-up; in the measurement phase they hold items the warm-up already freed, which are overwritten before they are read.
- MailboxRingResults.RingNeverBlocks: assumes that every worker entered the ring; one that saw an earlier failure skips the barriers.
- The benchmark's own queue and phases, command lines, JSON output, timers and trace generation: input, output and plumbing, or a repetition of the worker-pool queue.
