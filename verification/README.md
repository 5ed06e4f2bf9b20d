# DieHard in Dafny

A model of the DieHard allocator and of the algorithms around it, with proofs of
the properties its design rests on: where objects may lie, that placement is
uniform, that growth and cross-thread frees are safe in every interleaving, that
tables and maps are what they stand for, that replicated voting prints the
agreed output, and that patch files survive being written and read.

`dafny verify dfyconfig.toml` checks everything.

## How the project is laid out

| file | what it models |
|---|---|
| PowersOfTwo.dfy | powers of two, division and remainder |
| Log2.dfy | the ceiling logarithms, half-logarithms and size classes |
| BitMap.dfy, AtomicBitMap.dfy | the sequential bitmap in place, and the lock-free one as a machine of loads and compare-and-swaps |
| FreeQueue.dfy | the multi-producer queue of cross-thread frees, step by step and, used alone, in place |
| CrossThread.dfy | malloc, free, owner search and draining of many threads over those queues |
| CrossThreadProgress.dfy | that registration, owner search, free and malloc come to their end |
| CrossThreadRuns.dfy | particular runs of them: frees dropped on a full queue and on an empty one, and frees that are never delivered |
| Growth.dfy | the concurrent growth protocol of a size-class heap |
| GrowthProgress.dfy | that whoever waits for a growth gets through, and the grow lock is given back |
| Occupancy.dfy, OccupancyRuns.dfy | how full racing threads can make such a heap, slot by slot, and runs that reach the bound |
| Placement.dfy | counting which pairs of random draws choose which slot |
| HeapSpec.dfy, RandomHeap.dfy | what a size-class heap is, and miniheap and heap in place against it |
| DieHardHeap.dfy | the array of size classes with its cache |
| HashTable.dfy, DieHarder.dfy | the open-addressing table, the page table and the page-wise miniheap |
| RandomMmap.dfy | random page runs with rollback |
| LargeHeap.dfy | the table of large objects, its loops and its races |
| Voting.dfy, VotingProtocol.dfy | fingerprints, most common element, and the readers and voter as a machine |
| PatchText.dfy, PatchDb.dfy | printing and reading patch files, and the patch database |

Objects that the source updates in place are classes whose methods are proved
against functions of the old state; what the source promises is then proved
about those functions, over whole runs where it is about runs. Code that many
threads execute is a state machine in which every atomic load, store and
compare-and-swap is one step; a theorem about a run quantifies over every
sequence of enabled steps of any number of threads. Progress is stated from every
reachable state: whatever the others are in the middle of, a thread that is left
to run comes to the end of its operation by a bounded number of steps of its own,
or stops exactly where another thread holds it up. Fields that only record
history (`claimed`, `delivered`, `votes`, `history`, and `activated` in Growth)
are never read by a step. Some restrict what is studied: `place` of CrossThread
lets a thread free only an object that is held, so that each is freed once;
and `registered` of LargeHeap lets it free a large object only by its base
address or an address the table does not know.

Random numbers, addresses the operating system returns, and the order in which
threads run are arguments or choices of the environment. A random draw is any
number; malloc is given the sequence of draws it would make, and what is proved
about probability is a count of draws.

## Where the code is not what one might expect

These are proved as facts about the code, which is kept as it is.

* The bit-scan forms of `log2` shift their argument first and are right exactly
  up to half the word (`Log2.ScanLog2Correct`); the loop form runs for ever
  beyond that (`Log2.LoopLog2Ends`).
* The shifts of `halflog2` and `halfpow2` are shifts of an int, and their results
  are converted to size_t. With 32-bit ints halflog2 is right exactly up to
  3 * 2^30, halfpow2 exactly up to 61, and the round trip holds exactly from 2 to
  61 (`Log2.HalfLog2Correct`, `Log2.HalfPow2Exact`, `Log2.HalfLog2RoundTrip`; what
  comes out beyond is `Log2.HalfLog2Values`).
* With every miniheap active and the load test failing, `growHeapIfNeeded` never
  returns; it does return in every other state (`HeapSpec.GrowthLoopEnds`).
  Mallocs alone bring every heap there (`HeapSpec.GrowthLoopCanHang`).
* The load test is made before the retry loop and inUse raised behind it, so
  threads that race can pass the load bound, by less than one object each
  (`Occupancy.OccupancyBounded`). With enough of them every slot is taken and one
  draws in vain, until an object is freed or a miniheap activated; when that
  happens is exact (`OccupancyRuns.FullIff`).
* A growth raises `_available` before `_chunksInUse`
  (src/include/randomheap.h:358-360). Between the two stores the load test allows
  for the new miniheap, and the mask selects only the old ones. Threads can fill
  these and draw in vain until the mask is stored; when is exact again
  (`OccupancyRuns.FullBetweenIff`). With a multiplier below two, as the default of
  8/7 (src/source/libdieharder.cpp:21), two threads are enough
  (`OccupancyRuns.TwoThreadsSuffice`).
* Uniform placement needs the largest miniheap's size to divide the number of
  draw values, and that is enough (`Placement.PlacementUniform`).
* `push` may report a full queue when the ring is not full: its head was so old
  that `head - tail` wrapped (`FreeQueue.FullMeansFullOrStale`). A run reaches
  this with an empty ring of any capacity (`FreeQueue.StaleHeadLooksFull`).
* A cross-thread free whose push reports a full queue is dropped although `free`
  returns true, and its slot is lost for ever (`CrossThread.DroppedForever`). It is
  dropped by no other step, and by every such one (`CrossThread.DroppedIff`), and
  for every capacity a run gets there (`CrossThreadRuns.DropHappens`). Its owner's
  queue may even be empty: this happens exactly if the queue can hold
  FREE_BATCH_SIZE objects (`CrossThreadRuns.DropsOnEmptyIff`).
* Fewer than FREE_BATCH_SIZE queued frees are never carried out while no more
  arrive, however often the owner allocates
  (`CrossThreadRuns.FewAreNeverDelivered`).
* An interior pointer given to `free` ends the whole object that contains it
  (`HeapSpec.FreeEndsOneObject`).
* The voter drops zero bytes, so it reproduces a text exactly when the text has
  none (`Voting.StripIsFaithful`); and since fingerprints are sums, a single
  replica whose block is a reordering of the agreed one can be printed instead
  of it (`VotingProtocol.MajorityCanLose`). The exact condition is
  `VotingProtocol.MajorityIsPrintedIff` for one block and
  `VotingProtocol.PrintedIsLeadingBlocks` for whole runs.
* The voter exits at the first block on which all fingerprints differ, at no
  other, and every complete schedule ends with the same output
  (`VotingProtocol.VoterExitsIff`, `VotingProtocol.EveryScheduleEndsAlike`).
* The barrier waits for every replica, so a replica that emits fewer blocks than
  the others stops the output there, although the others agree
  (`VotingProtocol.EverySchedulePrintsTheText`).
* A request for no bytes takes no page from the page-run allocator, and its
  assertion fails exactly when the draw selects page 0
  (`RandomMmaps.AssertionHoldsIff`, `RandomMmaps.AssertionFails`).
* Reading a patch file marks its dangling pairs as updated, and writing then
  erases their counts; the round trip is about what is left after that.
* The drag kept for a pair of sites is meant to be the least one seen, but an
  update without a drag, such as reading a stat line, wipes out a positive one
  (`PatchDb.DragIsWipedOut`); when the least is kept is exact
  (`PatchDb.DragIsLeastIff`).

The comment on `BitMap::computeItemPosition` (src/include/util/bitmap.h:104)
bounds the word number by the number of bytes of a word; the model uses the
actual number of words.

## Model

| member | source | states |
|---|---|---|
| `Log2.CeilLog2Correct` | src/include/math/log2.h:17-28 | the bit-width form is the least k with 2^k >= sz, for every sz |
| `Log2.ScanLog2Correct` | src/include/math/log2.h:68-71 | the bit-scan form ((sz << 1) - 1 wraps) is right if and only if 2*sz still fits the word |
| `Log2.ScanLog2AtTop` | src/include/math/log2.h:60-64 | at sz = 2^(bits-1), the largest value for which it is right, the shifted word has all bits set and the scan is right |
| `Log2.LoopLog2` | src/include/math/log2.h:74-82 | the shifting loop returns the least k with 2^k >= v, for every v it ends on |
| `Log2.LoopLog2Ends` | src/include/math/log2.h:74-82 | the loop ends if and only if v <= 2^(bits-1): beyond that the shifted counter becomes zero and never reaches v |
| `Log2.HalfLog2Correct` | src/include/math/halflog2.h:69-73 | for v >= 2, with an int of w bits and a wider size_t: halflog2(v) is the least k whose class size 2^(k/2) or 3*2^((k-1)/2) holds v, if and only if v <= 3 * 2^(w-2) |
| `Log2.HalfLog2RoundTrip` | src/include/math/halflog2.h:69-78 | halflog2(halfpow2(k)) is defined and equal to k if and only if 2 <= k <= 2w-3, for an int of w bits |
| `Log2.HalfPow2MonotoneIff` | src/include/math/halflog2.h:75-78 | over the values for which its shift is defined, halfpow2 never decreases, and grows with every step from 1 on, exactly up to 2w-2 |
| `Log2.HalfPow2Exact` | src/include/math/halflog2.h:75-78 | halfpow2(v) is the class size 2^(v/2), with half as much again for odd v, if and only if v <= 2w-3 |
| `Log2.HalfLog2IsLeastIff` | src/include/math/halflog2.h:69-78 | halflog2(v) is the least k with halfpow2(k) >= v, both computed as the code does, if and only if v <= 2^(w-1) |
| `Log2.HalfLog2Fails` | src/include/math/halflog2.h:69-78 | concrete failures: at v = 3 * 2^(w-2) + 1 the index is one too low, and halflog2 of halfpow2(2w-2) shifts by more than the width |
| `Log2.ClassFits` | src/include/diehardheap.h:191-207 | for sz >= Alignment: sz <= classSize(index(sz)) < 2*sz, and index(sz) is the smallest class that fits |
| `BitMaps.MaskSelects` | src/include/util/bitmap.h:73 | testing word & mask tests exactly one bit |
| `BitMaps.MaskWrites` | src/include/util/bitmap.h:72-83 | word \| mask and word & ~mask change exactly one bit, and the latter changes the word iff the bit was set |
| `BitMaps.ItemPosition` | src/include/util/bitmap.h:96-105 | item and position together determine the index, and different indices differ in one of them |
| `BitMaps.IndicesAfterWrite` | src/include/util/bitmap.h:67-84 | writing one word adds or removes exactly one index of the set the words stand for |
| `BitMaps.BitMap.Reserve` | src/include/util/bitmap.h:47-57 | after reserve the bitmap is empty and has room for nelts indices, less than one word too many |
| `BitMaps.BitMap.TryToSet` | src/include/util/bitmap.h:67-74 | true iff the index was free; afterwards the contents are the old ones plus the index |
| `BitMaps.BitMap.Reset` | src/include/util/bitmap.h:77-84 | true iff the index was set; afterwards the contents are the old ones without it |
| `BitMaps.BitMap.IsSet` | src/include/util/bitmap.h:86-91 | reads exactly membership in the contents |
| `AtomicBitMaps.WordIsBit` | src/include/util/atomicbitmap.h:77-125 | the test each loop makes on a loaded word decides the call as the sequential bitmap would, and the word it would store changes the contents as that bitmap's operation does |
| `AtomicBitMaps.StepKeeps` | src/include/util/atomicbitmap.h:82-115 | every load, test, successful or failing (also spuriously) compare-and-swap and return keeps the invariant that ties words, threads and history together |
| `AtomicBitMaps.Linearizable` | src/include/util/atomicbitmap.h:77-125 | any run of any number of threads is linearizable: each call acts once between its start and its return with the result it returns, and these actions in order are a run of the sequential bitmap that ends in the present words |
| `AtomicBitMaps.SuccessesAlternate` | src/include/util/atomicbitmap.h:77-116 | however threads race on an index, successful sets and resets alternate, starting with a set |
| `AtomicBitMaps.SetBitsBalance` | src/include/util/atomicbitmap.h:77-116 | in every state, set bits = successful sets - successful resets |
| `AtomicBitMaps.CallEnds` | src/include/util/atomicbitmap.h:77-121 | in every reachable state a call that is left alone returns after at most five steps, its compare-and-swap failing at most once |
| `FreeQueue.StepInv` | src/include/globalfreepool.h:94-162 | every atomic step of any producer and of the owner keeps the ring invariant: tail <= head <= tail + capacity, cells outside the claimed window are null, claimed tickets have distinct holders |
| `FreeQueue.DeliveredInTicketOrder` | src/include/globalfreepool.h:94-162 | in every interleaving what drain has handed out is a prefix of the claimed pointers in ticket order; it only grows; each claimed pointer is delivered, in the ring or still to be stored, never two of these |
| `FreeQueue.StoreHitsEmptyCell` | src/include/globalfreepool.h:110-115 | a producer about to store finds its cell null and holds its ticket alone, so that no unread pointer is overwritten |
| `FreeQueue.FullMeansFullOrStale` | src/include/globalfreepool.h:97-105 | push reports a full queue exactly when the ring was full at the loads or its head was so stale that head - tail wrapped around |
| `FreeQueue.StaleHeadLooksFull` | src/include/globalfreepool.h:97-105 | the stale case is reached: for every capacity some run ends where all that was claimed has been delivered, the ring is empty, and the next load makes a push report it full |
| `FreeQueue.DrainAlone` | src/include/globalfreepool.h:127-162 | a drain that runs alone stops at the first claimed but unwritten cell and has then delivered everything before it, everything claimed when there is none |
| `FreeQueue.HistoryGrows` | src/include/globalfreepool.h:94-162 | what was claimed or delivered stays claimed or delivered, in the same places |
| `FreeQueue.PerThreadFreeQueue.constructor` | src/include/globalfreepool.h:77-85 | a new queue is empty |
| `FreeQueue.PerThreadFreeQueue.Push` | src/include/globalfreepool.h:94-118 | called alone, push appends the pointer or, exactly when the queue is full, changes nothing and reports it |
| `FreeQueue.PerThreadFreeQueue.Drain` | src/include/globalfreepool.h:127-162 | called alone, drain hands out the whole contents in order and leaves the queue empty |
| `CrossThread.StepInv` | src/include/objectownership.h:58-156 | every step of malloc, free, registration, owner search, push and drain, of any thread, keeps the system invariant |
| `CrossThread.EveryObjectInOnePlace` | src/include/objectownership.h:75-143 | in every reachable state a slot's bit is set exactly while its object is held, inside one thread's free, at one ticket of its owner's queue, or dropped - one of these, once |
| `CrossThread.OnlyTheOwnerTouchesASlot` | src/include/objectownership.h:110-117 | a bit is cleared only by the slot's owner, in its own free or in its drain; malloc never returns an object that is held, inside free, queued or dropped |
| `CrossThread.OwnerIsFound` | src/include/heapregistry.h:88-113 | when the owner search of a live small object ends, it ends at the object's owner; the unknown-owner branch is never taken |
| `CrossThreadProgress.SearchEnds` | src/include/heapregistry.h:88-113 | in every reachable state the owner search comes to the owner of its object by steps of its own thread, one for each entry at most and one to load their number |
| `CrossThreadProgress.FreeEnds` | src/include/objectownership.h:75-143 | wherever a thread is in free, at most thread count + 12 steps of its own, without spurious failures of a compare-and-swap, end it: the slot is cleared, or the object is in its owner's queue, or dropped |
| `CrossThreadProgress.RegistrationEnds` | src/include/heapregistry.h:61-77 | a registration that has begun is done after at most five steps of its own thread, with the entry published and covered by the maximum id |
| `CrossThreadProgress.MallocEnds` | src/include/objectownership.h:58-73 | wherever a thread is in malloc, drain included, a number of steps of its own bounded by the queue's capacity ends it, if its heap has a free slot |
| `CrossThreadProgress.MallocHandsOutASlot` | src/include/objectownership.h:71-72 | malloc returns in no other way than by handing out a slot of its own heap that was not taken |
| `CrossThreadProgress.QueueIsCheckedIff` | src/include/objectownership.h:65-69 | a malloc looks at its queue if and only if the number of its thread's mallocs is a multiple of the interval, however often the counter has wrapped |
| `CrossThread.IdsAreDistinctIff` | src/include/globalfreepool.h:304-309 | thread ids, and with them queue owners, are distinct if and only if there are at most MAX_THREADS heaps |
| `CrossThread.FreesAreConserved` | src/include/objectownership.h:125-143 | over any run and for every object: mallocs = clearings + (1 while its bit is set); frees = clearings + (1 while it is inside free, queued or dropped) |
| `CrossThread.DroppedForever` | src/include/objectownership.h:140-142 | an object whose push found the queue full keeps its bit set for ever, since the result of crossThreadFree is ignored |
| `CrossThread.DroppedIff` | src/include/objectownership.h:140-142 | in every step of every run an object becomes dropped if and only if the step is the load of the tail by the push that carries it, and the head that push read is below the tail or the ring is full at both loads |
| `CrossThreadRuns.DropHappens` | src/include/objectownership.h:125-143 | for every capacity a run of two threads at whose end every call has returned, the queue is full and one object more was freed and dropped; below FREE_BATCH_SIZE those queued then wait for ever as well |
| `CrossThreadRuns.DropsOnEmptyIff` | src/include/globalfreepool.h:94-172 | some run of the whole system drops an object while everything its owner was sent has been delivered, with a queue of a given capacity, if and only if that is at least FREE_BATCH_SIZE |
| `CrossThreadRuns.SmallIsNeverDrained` | src/include/globalfreepool.h:164-172 | a queue that holds fewer than FREE_BATCH_SIZE objects when full is never drained, in any run |
| `CrossThreadRuns.DrainDeclinedIff` | src/include/globalfreepool.h:164-172 | the owner decides against draining exactly when fewer than FREE_BATCH_SIZE of the tickets claimed before its load of the head are undelivered |
| `CrossThreadRuns.FewAreNeverDelivered` | src/include/globalfreepool.h:164-172 | as long as fewer than FREE_BATCH_SIZE objects wait in a queue, no run delivers one of them, however much its owner allocates |
| `Growth.CapacityIsTotalSize` | src/include/randomheap.h:268-275 | MIN_OBJECTS * 2^(k-1) is the sum of the sizes of the first k miniheaps of the ladder |
| `Growth.StepInv` | src/include/randomheap.h:291-375 | every atomic access of every thread keeps the invariant of the growth protocol |
| `GrowthProgress.NobodyWaitsForNothing` | src/include/randomheap.h:291-375 | in every reachable state a thread at any point of its growth check or of the growth section comes to the choice of a miniheap by a bounded number of its own moves, if nobody else holds the lock and the whole ladder is enough |
| `GrowthProgress.LockIsGivenBack` | src/include/randomheap.h:331-375 | whoever holds the grow lock gives it back by at most nine moves of its own |
| `GrowthProgress.EveryWaiterGetsThrough` | src/include/randomheap.h:305-329 | a thread that waits while another grows gets through: the other's own moves free the lock, its own moves then bring it to the choice of a miniheap |
| `GrowthProgress.WaitsOnlyForTheLock` | src/include/randomheap.h:305-328 | while one thread grows, another in its growth check waits nowhere but in the loop that watches the lock, and not at all when there is enough space and its counters are yet to be loaded |
| `GrowthProgress.GrowthEndsIff` | src/include/randomheap.h:291-297 | the loop of growHeapIfNeeded, entered with the lock free and left alone, ends if and only if the whole ladder of miniheaps is enough for the objects in use |
| `GrowthProgress.MallocReturns` | src/include/randomheap.h:131-160 | a malloc that nobody hinders, and whose slot is free, is over after a bounded number of moves, with one more object counted and the lock free |
| `Growth.GrowthNeedsLoad` | src/include/randomheap.h:331-363 | no miniheap is activated unless the load test fails at some moment at which the activating thread has the lock |
| `Growth.GrowthIsExclusive` | src/include/randomheap.h:301-375 | at most one thread is ever between taking and releasing the grow lock |
| `Growth.CountersSettle` | src/include/randomheap.h:342-373 | whenever the lock is free and k >= 1 miniheaps are active, available = MIN_OBJECTS*2^(k-1) = the sum of their sizes and the mask is 2^(k-1)-1 |
| `Growth.PickedMiniHeapIsActive` | src/include/randomheap.h:231-241 | in every reachable state the index a draw selects once the growth check has passed names an activated miniheap |
| `Growth.GrowthIsMonotone` | src/include/randomheap.h:353-365 | available space, mask and active miniheaps never decrease, and the published count trails the activated one by at most one |
| `Growth.IndexInRange` | src/include/randomheap.h:235-239 | log2((rnd & chunks) + 1) is at most k when k+1 miniheaps are active |
| `Occupancy.EventKeeps` | src/include/randomheap.h:131-192 | every atomic access, every attempt on a drawn slot and every cleared bit keeps the account: threads that have set a bit hold different slots, inUse counts the objects and frees in progress, and objects in use with threads past the load test stay bounded |
| `Occupancy.OccupancyBounded` | src/include/randomheap.h:138-159 | in every interleaving of n threads, Numerator * (set bits + frees in progress) < available * Denominator + Numerator * n: racing threads pass the load bound by less than n objects |
| `Occupancy.InUseCounts` | src/include/randomheap.h:156-157 | inUse is always the number of objects returned and not freed plus the frees in progress, so that lowering it never wraps |
| `Occupancy.SelectedIff` | src/include/randomheap.h:231-241 | under the mask for k miniheaps two draws can select a slot if and only if it is one of the first k miniheaps |
| `Occupancy.FreeSlotIsLeft` | src/include/randomheap.h:147-154 | in every interleaving of n threads with available * Denominator + Numerator * (n-1) <= available * Numerator, and no thread between the stores of _available and _chunksInUse, some draws under the present mask select a free slot whenever a thread looks for one |
| `Occupancy.FreeSlotIsLeftInside` | src/include/randomheap.h:356-360 | the same while a thread is between the two stores, unless twice the old space is too tight for n threads |
| `OccupancyRuns.FullIff` | src/include/randomheap.h:138-154 | for each number of active miniheaps, some interleaving of n threads sets the bit of every slot the mask selects and leaves a thread looking, with no one between the two stores, if and only if available * Denominator + Numerator * (n-1) > available * Numerator |
| `OccupancyRuns.FullBetweenIff` | src/include/randomheap.h:356-360 | for each number of miniheaps before a growth, some interleaving of n threads does so between the two stores if and only if n >= 2 and 2C * Denominator + Numerator * (n-2) > C * Numerator with C slots in the old miniheaps, or the same with n-1 where n threads can overtake the test made with the new space |
| `OccupancyRuns.TwoThreadsSuffice` | src/include/randomheap.h:356-360 | with Numerator < 2 * Denominator, two threads are enough for that at every growth |
| `OccupancyRuns.OvertakingCanDecide` | src/include/randomheap.h:318-360 | four threads for which the first inequality of that condition fails and which fill the old miniheaps all the same |
| `Placement.HeapDrawsSize` | src/include/randomheap.h:232-239 | when 2^k divides the number w of draw values, exactly (w/2^k) * width(i) of them select miniheap i, width(i) being its share of the ladder |
| `Placement.EqualShare` | src/include/randomheap.h:231-241 | a given slot of any active miniheap is hit by the same number of pairs of draws: MIN_OBJECTS * hits = (w/2^k) * w |
| `Placement.PlacementUniform` | src/include/randomheap.h:231-241 | with k+1 active miniheaps and w draw values, all slots of all active miniheaps are hit equally often if and only if the largest miniheap size divides w |
| `Placement.PowerOfTwoIsUniform` | src/include/randomminiheap-core.h:107-109 | power-of-two MIN_OBJECTS always gives exactly uniform placement for draws of enough bits |
| `Placement.CollisionsBounded` | src/include/randomheap.h:141-154 | for draws that place uniformly and under the load bound, Numerator * (pairs that hit an occupied slot) < Denominator * (all pairs), and some pair hits a free slot, so the retry loop can always succeed |
| `Placement.LandingSum` | src/include/randomheap.h:231-241 | the pairs that hit a set of slots add up over its members |
| `HeapSpec.MinObjectsFit` | src/include/randomheap.h:87-93 | the MIN_OBJECTS formula always gives parameters with Numerator < 2 * MIN_OBJECTS * Denominator |
| `HeapSpec.MinObjectsIsLargest` | src/include/randomheap.h:87-93 | MIN_OBJECTS is the largest number of objects that fit in the grain or in the multiplier's worth of one object |
| `HeapSpec.OneActivationSuffices` | src/include/randomheap.h:141-146 | in every state below the limit one further miniheap restores Numerator*inUse < available*Denominator |
| `HeapSpec.GrowthLoopEnds` | src/include/randomheap.h:291-297 | the growth loop ends if and only if the test passes at once or a miniheap is left to activate |
| `HeapSpec.GrowthLoopCanHang` | src/include/randomheap.h:291-297 | for all parameters a run of mallocs alone ends with every miniheap active and the load test failing, where the loop never ends |
| `HeapSpec.TargetOfInterior` | src/include/randomminiheap-diehard.h:82-99 | every byte of an active slot leads back to that slot and to no other |
| `HeapSpec.SlotsApart` | src/include/randomminiheap-diehard.h:101-109 | different slots occupy different bytes |
| `HeapSpec.SlotsAligned` | src/include/diehardheap.h:113 | in every consistent heap whose object size is a multiple of the alignment, every slot of an active miniheap is aligned |
| `HeapSpec.RunOk` | src/include/randomheap.h:131-192 | over any run of mallocs and frees the load bound, the regions and the live slots stay consistent |
| `HeapSpec.LiveObjectsApart` | src/include/randomheap.h:131-192 | over any run, live objects never overlap |
| `HeapSpec.MallocSafety` | src/include/randomheap.h:131-160 | over any run, a new object is aligned when the object size is, overlaps no live object, moves none, and the live count grows by one |
| `HeapSpec.FreeEndsOneObject` | src/include/randomminiheap-core.h:142-171 | over any run, free of any byte of a live object ends exactly that object |
| `HeapSpec.OtherFreesDoNothing` | src/include/randomminiheap-core.h:145-150 | free of an address in no live object (a second free, an address out of range) changes nothing |
| `RandomHeaps.RandomMiniHeap.Activate` | src/include/randomminiheap-diehard.h:57-79 | the first activation takes the region and an empty bitmap; a further one changes nothing |
| `RandomHeaps.RandomMiniHeap.Malloc` | src/include/randomminiheap-core.h:97-137 | null iff the drawn slot was taken; otherwise its address; exactly that bit is set afterwards |
| `RandomHeaps.RandomMiniHeap.ComputeIndex` | src/include/randomminiheap-diehard.h:82-99 | the index of the slot whose bytes contain the pointer |
| `RandomHeaps.RandomMiniHeap.Free` | src/include/randomminiheap-core.h:142-171 | out of range, or not yet activated: nothing; otherwise the bit of the containing slot is cleared, true iff it was set |
| `RandomHeaps.RandomMiniHeap.GetSize` | src/include/randomminiheap-diehard.h:25-38 | zero iff out of range; otherwise ptr plus the result is the end of its slot |
| `RandomHeaps.MakeMiniHeaps` | src/include/randomheap.h:122-127 | the ladder of miniheaps: the sizes MIN_OBJECTS, MIN_OBJECTS, 2*MIN_OBJECTS, ..., none active, none sharing memory |
| `RandomHeaps.RandomHeap.constructor` | src/include/randomheap.h:102-128 | a new heap has no active miniheap and no live object |
| `RandomHeaps.RandomHeap.GetAnotherMiniHeap` | src/include/randomheap.h:301-375 | activates the next miniheap with the given region, or changes nothing when all are active; the counters stay those of the ladder |
| `RandomHeaps.RandomHeap.GrowHeapIfNeeded` | src/include/randomheap.h:291-297 | runs its loop at most once and leaves the heap with the load bound restored |
| `RandomHeaps.RandomHeap.GetObject` | src/include/randomheap.h:231-241 | one attempt: null iff the drawn slot is taken, else its address; exactly that slot becomes live |
| `RandomHeaps.RandomHeap.Malloc` | src/include/randomheap.h:131-160 | one more miniheap is activated iff the load test fails; null iff every draw lands on a live slot; else the least draw that does not decides, its slot's address is returned and exactly that slot becomes live; inUse stays the number of set bits |
| `RandomHeaps.RandomHeap.Free` | src/include/randomheap.h:163-192 | whatever the cache holds: the live slots afterwards are the old ones without the slot that contains ptr, true iff it was live; inUse stays the number of set bits |
| `RandomHeaps.RandomHeap.Search` | src/include/randomheap.h:178-191 | the slow path does the whole free whatever miniheap was tried before |
| `RandomHeaps.RandomHeap.GetSize` | src/include/randomheap.h:196-213 | zero iff no active miniheap holds ptr, else the bytes to the end of its slot |
| `DieHardHeaps.OneHeapHolds` | src/include/diehardheap.h:131-137 | an address lies in at most one size class |
| `DieHardHeaps.DieHardHeap.ServedBy` | src/include/diehardheap.h:96-104 | the class for a request: sizes below the alignment are raised to it, and the class size is less than twice that |
| `DieHardHeaps.DieHardHeap.Malloc` | src/include/diehardheap.h:84-115 | a request that no class holds gets null and changes nothing; any other is served by the smallest class that holds it as RandomHeap.Malloc says, no other class changes, and the result is a multiple of the alignment |
| `DieHardHeaps.DieHardHeap.Free` | src/include/diehardheap.h:120-141 | same result and same state as an uncached search, for every value of the cache: in every class exactly the slot containing ptr is no longer live, true iff one was |
| `DieHardHeaps.DieHardHeap.GetSize` | src/include/diehardheap.h:146-168 | same result as an uncached search, for every value of the cache: what is left of the slot that contains ptr, zero iff no class holds it; only the cache changes |
| `DieHardHeaps.DieHardHeap.ClassesApart` | src/include/diehardheap.h:72-77 | live objects of different size classes never overlap |
| `DieHardHeaps.MakeHeaps` | src/include/diehardheap.h:209-223 | one heap for each class with object size (1 << index) * Alignment |
| `HashTable.Last` | src/include/util/dynamichashtable.h:122 | the slot lim is the one slot a full probe would look at last |
| `HashTable.ProbeEnds` | src/include/util/dynamichashtable.h:124-135 | with less than size - 1 slots in use no probe comes to its end, so assert(false) and abort are not reached |
| `HashTable.FillProbed` | src/include/util/dynamichashtable.h:126-132 | filling the first free slot of a probe keeps the cyclic probing invariant |
| `HashTable.FillFree` | src/include/util/dynamichashtable.h:126-132 | filling the first free slot of a probe adds exactly that entry to the multiset of entries the table holds |
| `HashTable.FreeMeansAbsent` | src/include/util/dynamichashtable.h:182-195 | a probe that meets a free slot before the key proves the key absent |
| `HashTable.DynamicHashTable.constructor` | src/include/util/dynamichashtable.h:75-83 | a new table of a power-of-two size of at least 8 holds no entry |
| `HashTable.DynamicHashTable.Get` | src/include/util/dynamichashtable.h:89-93 | an entry inserted with the key, none if and only if none was; in a table whose keys were each inserted with one value this is lookup in the map they form |
| `HashTable.DynamicHashTable.Insert` | src/include/util/dynamichashtable.h:96-115 | adds exactly the new entry, also for a key that is already there and across growth; the table doubles if and only if the load would exceed 1/8, and stays within it |
| `HashTable.DynamicHashTable.InsertOne` | src/include/util/dynamichashtable.h:119-136 | adds the entry; the assertion behind the loop is never reached |
| `HashTable.DynamicHashTable.Grow` | src/include/util/dynamichashtable.h:138-173 | doubles the table and keeps its entries; the count of rehashed entries is numElements |
| `HashTable.DynamicHashTable.Rehash` | src/include/util/dynamichashtable.h:160-171 | reinserting the old slots one by one rebuilds the whole multiset of entries |
| `HashTable.DynamicHashTable.Find` | src/include/util/dynamichashtable.h:177-201 | finds an entry with the key if and only if there is one; the abort behind the loop is never reached |
| `HashTable.MapExtends` | src/include/util/dynamichashtable.h:96-115 | entries that represent a map, and one more with a new key, represent the map extended by it |
| `DieHarder.PowersOfTwoOk` | src/include/randomminiheap-dieharder.h:45-54 | power-of-two object and page sizes always satisfy the static assertions |
| `DieHarder.EntriesSuffice` | src/include/randomminiheap-dieharder.h:214-224 | the array of page pointers has an entry for every object index |
| `DieHarder.IndexInverse` | src/include/randomminiheap-dieharder.h:133-176 | for every index i and byte offset d of its object, in use or not: the page table names this heap, computeIndex(getObject(i) + d) == i, and for sub-page objects the size computation gives ObjectSize - d |
| `DieHarder.RandomMiniHeapDieHarder.KnownIsInObject` | src/include/randomminiheap-dieharder.h:133-159 | an address whose page the table enters for this heap is a byte of the object whose index is computed for it |
| `DieHarder.CoversStay` | src/include/randomminiheap-dieharder.h:115-125 | entries made for other heaps leave the pages of a heap entered, and named for no other page |
| `DieHarder.PageTable.GetHeap` | src/include/dieharder-pagetable.h:30-39 | the heap of an entry for the page of ptr, null if and only if there is no entry or it names null; with one entry a page, lookup in the map of pages |
| `DieHarder.PageTable.GetObjectIndex` | src/include/dieharder-pagetable.h:42-52 | the object index of an entry for the page of ptr, which the source asserts to exist; with one entry a page, lookup in the map of pages |
| `DieHarder.PageTable.Insert` | src/include/dieharder-pagetable.h:54-57 | adds exactly one entry, whatever the page; a new page extends the map of pages by it |
| `DieHarder.RandomMiniHeapDieHarder.Activate` | src/include/randomminiheap-dieharder.h:67-71 | the first activation enters every page of every run and keeps all entries that were there, with an empty bitmap of its own; a further one changes nothing; other miniheaps on the table stay valid |
| `DieHarder.RandomMiniHeapDieHarder.MapRuns` | src/include/randomminiheap-dieharder.h:94-126 | the loop over the runs fills the array of page pointers, covers every run in the page table, and enters this heap for no other page |
| `DieHarder.RandomMiniHeapDieHarder.MapPages` | src/include/randomminiheap-dieharder.h:115-125 | the inner loop enters every page of one run with the index of its first object |
| `DieHarder.RandomMiniHeapDieHarder.GetObject` | src/include/randomminiheap-dieharder.h:162-176 | the address of the object, null before activation |
| `DieHarder.RandomMiniHeapDieHarder.InBounds` | src/include/randomminiheap-dieharder.h:77-82 | true iff activated and the page table names this heap |
| `DieHarder.RandomMiniHeapDieHarder.ComputeIndex` | src/include/randomminiheap-dieharder.h:133-159 | the index of the object that ptr is a byte of |
| `DieHarder.RandomMiniHeapDieHarder.GetSize` | src/include/randomminiheap-dieharder.h:263-307 | for every address on a page of this heap, what is left from it to the end of the object it is in; for sub-page objects never zero nor more than ObjectSize at any address |
| `DieHarder.RandomMiniHeapDieHarder.Free` | src/include/randomminiheap-core.h:142-171 | before activation, or for an address the table does not name this heap for: false and nothing changes; otherwise the bit of the object that has the address is cleared and no other, true iff it was set |
| `RandomMmaps.RandomMmap.TrySetRun` | src/include/randommmap.h:61-71 | all or nothing: the bitmap gains the whole run if it was free, and is unchanged otherwise |
| `RandomMmaps.RandomMmap.Map` | src/include/randommmap.h:44-83 | null iff every draw meets a page in use; else the least draw that does not decides, the address of its run is returned and exactly its pages are in use as one more run, no page for no bytes; failed probes leave no trace |
| `RandomMmaps.EveryRunIsSelected` | src/include/randommmap.h:56 | a run is selected by some draw if and only if it ends inside the region |
| `RandomMmaps.PagesForIsLeast` | src/include/randommmap.h:48 | the number of pages mapped is the least that holds the bytes asked for |
| `RandomMmaps.AssertionHoldsIff` | src/include/randommmap.h:54-57 | with its wrapping subtraction, the assertion on a draw holds if and only if some byte is asked for or the draw does not select page 0 |
| `RandomMmaps.AssertionFails` | src/include/randommmap.h:54-57 | for no bytes and a draw of 0 the assertion fails, whatever the page size and the number of pages |
| `RandomMmaps.RandomMmap.Unmap` | src/include/randommmap.h:85-106 | frees exactly the pages it is told to, for any address on the first; when they are a run that was handed out, that run is given back and the others stay as they are |
| `RandomMmaps.LiveRunsPartition` | src/include/randommmap.h:44-106 | over any run of maps and unmaps live page runs are disjoint, inside the region, and together exactly the pages in use |
| `RandomMmaps.UnmapUndoesMap` | src/include/randommmap.h:61-101 | unmapping a run just mapped restores the earlier state |
| `RandomMmaps.UnmapUndoesMapAround` | src/include/randommmap.h:44-106 | mapping a run, any maps and unmaps of others, and unmapping it leaves what the others alone would have left |
| `RandomMmaps.SamePage` | src/include/randommmap.h:92-97 | masking the low bits of an address does not change its page index |
| `LargeHeaps.LargeHeap.Malloc` | src/include/largeheap.h:25-30 | enters the object that map returned into the table |
| `LargeHeaps.LargeHeap.Free` | src/include/largeheap.h:32-43 | hands back what the table says remains at ptr and removes exactly those entries; an unknown address changes nothing |
| `LargeHeaps.LargeHeap.Set` | src/include/largeheap.h:88-96 | the loop enters the remaining size at each page of the object |
| `LargeHeaps.LargeHeap.Clear` | src/include/largeheap.h:98-104 | the loop removes the entries of the object |
| `LargeHeaps.SetRangeEntries` | src/include/largeheap.h:88-96 | set adds exactly base + i*PageSize -> size - i*PageSize |
| `LargeHeaps.ClearRangeEntries` | src/include/largeheap.h:98-104 | clear removes exactly the entries at the pages of the object |
| `LargeHeaps.RunKeeps` | src/include/largeheap.h:25-49 | the invariant of table, lock, mapped memory and registered objects holds in every interleaving |
| `LargeHeaps.TableIsExact` | src/include/largeheap.h:25-49 | in every interleaving the table is exactly the remaining sizes of the registered objects, also while a range just unmapped and not yet cleared has been given to another thread |
| `LargeHeaps.MallocEndsRegistered` | src/include/largeheap.h:25-30 | the end of a malloc enters every page of its object with what is left of it there and changes no other entry |
| `LargeHeaps.FreeEndsCleared` | src/include/largeheap.h:32-43 | the end of a free leaves no entry for any page of its object, changes no other and releases the lock |
| `LargeHeaps.FreeReturnsItsMemory` | src/include/largeheap.h:32-43 | free unmaps exactly the memory of the object it is given and nothing for an unknown address |
| `LargeHeaps.SizeIsRemaining` | src/include/largeheap.h:45-49 | in every interleaving getSize at the start of a page is what remains of the object that has the page, zero iff none has it |
| `LargeHeaps.LockIsReleased` | src/include/largeheap.h:37-39 | whoever holds the lock is ready for the step that releases it |
| `Voting.MostCommonElement` | src/replicated/mostcommonelement.h:21-39 | the result is the first element that is most frequent, with its frequency |
| `Voting.BestIsFirst` | src/replicated/mostcommonelement.h:24-36 | no element is more frequent than the winner, and every earlier one is less frequent |
| `Voting.FreqIsCount` | src/replicated/mostcommonelement.h:25-29 | the frequency is the number of positions that hold the element |
| `Voting.MajorityWins` | src/replicated/mostcommonelement.h:21-39 | a value held by more than half of the elements wins, at its first position |
| `Voting.NoAgreementIff` | src/replicated/mostcommonelement.h:21-39 | the most frequent element occurs once if and only if no two elements are the same |
| `Voting.FingerprintFits` | src/replicated/fingerprinter.h:34-40 | the sum over a whole buffer fits an int, so that it never overflows |
| `Voting.PaddingKeepsFingerprint` | src/replicated/fingerprinter.h:33-40 | the zeroes a block is filled up with leave its fingerprint as it is |
| `Voting.StripIsFaithful` | src/replicated/voter.cpp:141-145 | printing all but the zero bytes reproduces a text if and only if it has none |
| `Voting.PrintBlock` | src/replicated/voter.cpp:140-146 | printing block b, padding and all, after the first b blocks prints the first b+1 blocks |
| `VotingProtocol.MoveKeeps` | src/replicated/reader.cpp:30-58 | every byte stored, signal sent and byte of padding keeps the reader invariant: the bytes stored so far are those of its present block |
| `VotingProtocol.VoteKeeps` | src/replicated/voter.cpp:98-166 | a vote prints the block it chooses and leaves every reader waiting to be continued, or, exactly when all fingerprints differ, ends the voter and prints nothing |
| `VotingProtocol.VoteIsChoice` | src/replicated/voter.cpp:103-146 | a vote chooses, by fingerprint, among the present blocks of the replicas themselves, and finds no two that agree exactly when all of these differ |
| `VotingProtocol.ChoiceIsMostCommon` | src/replicated/voter.cpp:103-146 | a vote prints the block of the first replica whose fingerprint as many replicas share as any |
| `VotingProtocol.ChosenIsTextIff` | src/replicated/voter.cpp:103-146 | with a majority for a text, what the votes choose follows the text block after block up to n if and only if at each of the n blocks the first replica with the fingerprint of its block prints the same |
| `VotingProtocol.PrintedIsChosen` | src/replicated/voter.cpp:92-168 | whatever the replicas emit, in every schedule what has been printed is what the votes held so far chose, and some two replicas agreed on each of those blocks |
| `VotingProtocol.VoterExitsIff` | src/replicated/voter.cpp:108-139 | in every step of every schedule the voter exits if and only if the step takes the last signal of a round and all fingerprints of the block differ |
| `VotingProtocol.VoterGoesOn` | src/replicated/voter.cpp:108-139 | with a majority for a text the voter never exits and never votes beyond the end of the text |
| `VotingProtocol.EveryScheduleEndsAlike` | src/replicated/voter.cpp:26-168 | whatever the replicas emit, every schedule is finite and all complete ones print the same: the choices up to the first block on which all fingerprints differ, or to the end of the shortest replica; the voter exits in the first case alone |
| `VotingProtocol.StepKeeps` | src/replicated/voter.cpp:40-168 | every step of a reader or the voter keeps the protocol invariant |
| `VotingProtocol.PrintedIsLeadingBlocks` | src/replicated/voter.cpp:92-168 | up to any point of any schedule the output was always a whole number of leading blocks of the text, one for each vote, if and only if at every block voted on the first replica with its fingerprint prints the same |
| `VotingProtocol.VotesSeeFreshBlocks` | src/replicated/voter.cpp:95-111 | every vote finds each reader stopped behind exactly one complete block, the one after that of the last vote |
| `VotingProtocol.StepDecreases` | src/replicated/reader.cpp:30-58 | every step brings the protocol nearer to its end |
| `VotingProtocol.StuckMeansDone` | src/replicated/voter.cpp:40-84 | a run that cannot go on has voted on every block of the replica with the fewest, unless the voter exited at one on which all differ: there is no earlier deadlock |
| `VotingProtocol.EverySchedulePrintsTheText` | src/replicated/voter.cpp:26-86 | every schedule is finite; at its end what the votes chose is printed up to the shortest replica; if every one of those blocks elects the text, that is the text, and a text without zero bytes whole if and only if no replica emits fewer blocks |
| `VotingProtocol.AgreedOutputIsPrinted` | src/replicated/voter.cpp:26-168 | replicas that all emit the same text have exactly it printed, in every schedule, if and only if it has no zero byte |
| `VotingProtocol.MajorityIsPrintedIff` | src/replicated/voter.cpp:103-146 | even with a majority for a block, what is printed is that block if and only if the first replica with its fingerprint prints the same |
| `VotingProtocol.MajorityCanLose` | src/replicated/fingerprinter.h:33-40 | three buffers in which two agree and the third, a reordering of theirs, is printed |
| `PatchText.DigitsValue` | src/exterminator/src/patcher/patch_db.h:12-13 | the digits printed for a number have its value, in both bases |
| `PatchText.ReadHex` | src/exterminator/src/patcher/patch_db.cpp:109 | a site printed with 0x%x is read back by a hexadecimal extraction |
| `PatchText.ReadSigned` | src/exterminator/src/patcher/patch_db.cpp:114 | an int printed with %d is read back |
| `PatchText.ReadCount` | src/exterminator/src/patcher/patch_db.cpp:124 | an unsigned count printed with %d, as a negative number from 2^31 on, is read back by an unsigned extraction |
| `PatchText.LineIsRead` | src/exterminator/src/patcher/patch_db.cpp:111-129 | one turn of the reading loop reads exactly one printed line |
| `PatchText.ParseFormat` | src/exterminator/src/patcher/patch_db.cpp:97-131 | reading printed lines gives back those lines, every one, in order, and nothing else |
| `PatchText.StatSample` | src/exterminator/src/patcher/patch_db.cpp:44-46 | the very text of one printed count, with a value above the largest int |
| `PatchText.OverflowSample` | src/exterminator/src/patcher/patch_db.h:11-13 | the very text of one printed overflow |
| `PatchText.DangleSample` | src/exterminator/src/patcher/patch_db.h:26-28 | the very text of one printed dangle |
| `PatchDb.LoadKeeps` | src/exterminator/src/patcher/patch_db.cpp:68-83 | adding a patch or a count keeps sites and values in 32 bits and every dangling pair recorded as updated |
| `PatchDb.LoadListing` | src/exterminator/src/patcher/patch_db.cpp:111-126 | loading the lines of a database into an empty one rebuilds its overflow, dangle and stat maps |
| `PatchDb.WriteReadWrite` | src/exterminator/src/patcher/patch_db.cpp:23-47 | write, read into an empty database, write again: the same overflow, dangle and remaining stat maps, nothing further erased, and the same text |
| `PatchDb.PatchDatabase.AddOverflowPatch` | src/exterminator/src/patcher/patch_db.cpp:68-71 | replaces the patch of the call site and changes nothing else |
| `PatchDb.PatchDatabase.AddDanglePatch` | src/exterminator/src/patcher/patch_db.cpp:73-77 | replaces the patch of the pair of sites and records the pair as updated |
| `PatchDb.PatchDatabase.UpdateStaticInfo` | src/exterminator/src/patcher/patch_db.cpp:79-83 | one update of both counts and of the drag; what updates come to is CountsAddUp and DragIsLeastIff |
| `PatchDb.CountsAddUp` | src/exterminator/src/patcher/patch_db.cpp:79-83 | after any updates of a pair its two counts are the sums of what they brought, modulo 2^32 |
| `PatchDb.OtherKeysStay` | src/exterminator/src/patcher/patch_db.cpp:79-83 | updates of one pair leave every other pair and the other maps alone |
| `PatchDb.DragIsLeastIff` | src/exterminator/src/patcher/patch_db.cpp:79-83 | the drag kept for a new pair is the least nonzero one seen if and only if that one is negative or no zero drag comes after it |
| `PatchDb.DragIsWipedOut` | src/exterminator/src/patcher/patch_db.cpp:82 | three updates with drags 5, 0 and 7 leave 7 |
| `PatchDb.PatchDatabase.ReadPatch` | src/exterminator/src/patcher/patch_db.cpp:97-131 | adds, in order, the lines any text parses to |
| `PatchDb.LastLineDecides` | src/exterminator/src/patcher/patch_db.cpp:111-120 | of several overflow or dangle lines about one entry the last one is what the database holds |
| `PatchDb.StatLinesAddUp` | src/exterminator/src/patcher/patch_db.cpp:121-126 | reading lines does to the counts and the drag of a pair what the updates of its own stat lines do, with no drag |
| `PatchDb.PatchDatabase.OutputPatch` | src/exterminator/src/patcher/patch_db.cpp:23-47 | erases exactly the counts of the pairs in updatedDangles and leaves the rest; the text reads as one line for each entry of the three maps with its values and no other, overflows before dangles before counts, each ordered by its sites |
| `PatchDb.SortedFrom` | src/exterminator/src/patcher/patch_db.cpp:31-38 | taking the least key first lists a map in key order |

## Left out

Contracts that say less than the code or assume more than it checks:

- FreeQueue.DeliveredInTicketOrder: pushes are assumed not to be null, and a push is enabled only while the head counter has not reached 2^64 minus the capacity, because counters that wrap around are not modelled.
- FreeQueue.PerThreadFreeQueue.Push: the method is one call with no other thread about; interleavings are the subject of the step machine.
- CrossThread.OwnerIsFound: at most MAX_THREADS heaps exist, so that thread ids, which the source takes modulo MAX_THREADS, are not shared; and only small objects are freed, each by its base address and once.
- CrossThreadProgress.FreeEnds: the owner's queue has room in its counter for one more ticket, as for FreeQueue.DeliveredInTicketOrder; a weak compare-and-swap that fails although it could succeed makes the thread go round once more, and how often that happens is up to the machine.
- CrossThreadProgress.MallocEnds: that the retry loop finds the free slot is one step here.
- CrossThread.EveryObjectInOnePlace: reading another thread's heap during the owner search is one step, and the cache such a read may update is not modelled.
- Growth.PickedMiniHeapIsActive: stores become visible in program order, because weak memory is not modelled.
- GrowthProgress.MallocReturns: the slot that is tried is taken to be free; what happens otherwise is the subject of Occupancy.
- OccupancyRuns.FullIff: stores become visible in program order, as in Growth; that a miniheap's second draw can select each of its slots is taken from the generator, which is any number here.
- RandomHeaps.RandomHeap.Malloc: the source draws until a slot is free; the model is given finitely many draws and returns null when all of them collide. That a free slot can always be drawn is Placement.CollisionsBounded; that it is drawn at some point is a matter of chance.
- RandomHeaps.RandomHeap.GrowHeapIfNeeded: called only where the source's loop ends, as HeapSpec.GrowthLoopEnds says exactly.
- RandomHeaps.RandomMiniHeap.Activate: memory is assumed to be given; the source asserts that it was.
- DieHardHeaps.DieHardHeap.Malloc: regions the allocator hands out are assumed not to overlap.
- HashTable.DynamicHashTable.Get: when a key was inserted more than once, which of its entries is found is not stated.
- HashTable.DynamicHashTable.Grow: sizes are unbounded, where the source keeps indices in 32-bit ints, and allocation does not fail.
- DieHarder.RandomMiniHeapDieHarder.GetSize: for objects of a page and more the page table must know the page, as the source asserts (src/include/dieharder-pagetable.h:46-47).
- DieHarder.RandomMiniHeapDieHarder.Free: the object that has the address must be one of the NObjects, as the source asserts; a last page may have room for more (src/include/randomminiheap-dieharder.h:157).
- DieHarder.RandomMiniHeapDieHarder.Activate: the operating system is assumed to return page-aligned runs that overlap nothing mapped before; miniheaps have distinct addresses.
- RandomMmaps.RandomMmap.Map: sz is at most the region, beyond which the source takes a remainder by a wrapped or zero count; the method goes on where the source's assertion fails, as a build without assertions does; finitely many draws, as for malloc.
- RandomMmaps.RandomMmap.Unmap: the pages named lie in the bitmap; sizes stay below 2^32 pages, beyond which the source's unsigned int count wraps.
- LargeHeaps.TableIsExact: objects have at least one byte, map does not fail, and free is given a base address or one the table does not know; an interior page address would clear part of an object.
- VotingProtocol.EverySchedulePrintsTheText: more than half of the replicas emit the text. ReplicasAliveNow stays at the number of replicas, as it does in the voter's process, which is forked before the signal handler that lowers it is installed (src/replicated/diehard.cpp:191-208).
- Log2.HalfLog2Correct: size_t is at least two bits wider than int, as on every 64-bit machine; a shift by the width of int or more is undefined.
- PatchText.ParseFormat: unsigned long and size_t have 32 bits, as %x and %d without a length modifier require; a field that is missing at the end of a malformed file is zero, where the source leaves the variable as it was.

Not modelled:

- Memory contents: DieFast's fills and checks, the freed-value test, overflowIndex, and the memset of DieHarder's free.
- mmap, madvise, protect, BumpAlloc and the Heap-Layers classes, which are external; address ranges are arguments.
- The random number generators themselves.
- ScalableHeap's thread-local storage and its early-initialization fallback, and DieHarder combined with the scalable heap, where the page table is shared.
- The power-of-two masks of the source (x & (2^k - 1), shifts by a logarithm) are written as remainders and quotients; machine words of the bitmap are sequences of 64 bits.
- Other shifts of an int: 1 << index over size classes and 1 << heaps over miniheaps stay below the sign bit, because the number of classes and of miniheaps is bounded at compile time (src/include/randomheap.h:79-85, src/include/diehardheap.h:65-67), and are powers of two here.
- Item numbers of the bitmaps are unsigned 32-bit in the source; indices beyond 2^38 are not considered.
- Check canaries, statistics, approximateCount, isFull and isOwnedBy.
- The mutexes around the hash table and around page-run allocation: those operations are modelled as whole calls.
- Pipes, stdio buffering, SIGPIPE and child signals of the voter: a pipe is a count of bytes in transit, output is a growing sequence, and a replica that crashes is not modelled.
- The Exterminator's heap comparison, inspect_static_info and its probabilities; file errors of read_patch and output_patch.
- Windows, heapshield, fault injectors, benchmarks and the Java and socket proxies.
