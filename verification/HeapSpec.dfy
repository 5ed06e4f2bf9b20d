/**
 * What a size-class heap is, without its caches and counters: the addresses of
 * its active miniheaps and the set of slots in use.  RandomHeap is proved
 * against these definitions; here they are shown to keep objects apart.
 */
module HeapSpec {
  import opened PowersOfTwo
  import opened Log2
  import opened Growth
  import opened Placement

  /** Miniheap i starts at bases[i]; live holds the slots whose bit is set. */
  datatype Heap = Heap(bases: seq<nat>, live: set<Slot>)

  const EMPTY := Heap([], {})

  /** The static parameters of RandomHeap. */
  predicate ParamsOk(p: Params) {
    0 < p.den <= p.num && p.minObjects > 0 && p.num < 2 * (p.minObjects * p.den)
  }

  /** MIN_OBJECTS as the source computes it from the multiplier, the object size and the allocation grain. */
  function MinObjects(num: nat, den: nat, objectSize: nat, grain: nat): nat
    requires den > 0 && objectSize > 0
  {
    var wanted := (num * objectSize) / den;
    (if grain > wanted then grain else wanted) / objectSize
  }

  /** The source's formula always yields at least floor(num/den) objects, which makes the parameters fit. */
  lemma MinObjectsFit(num: nat, den: nat, objectSize: nat, grain: nat, maxHeaps: nat)
    requires 0 < den <= num && objectSize > 0
    ensures ParamsOk(Params(num, den, MinObjects(num, den, objectSize, grain), maxHeaps))
  {
    var q := num / den;
    assert num == q * den + num % den && q >= 1;
    var wanted := (num * objectSize) / den;
    assert wanted >= q * objectSize by {
      assert num * objectSize == (q * objectSize) * den + (num % den) * objectSize;
      QuotientAtLeast(num * objectSize, den, q * objectSize);
    }
    var size := if grain > wanted then grain else wanted;
    QuotientAtLeast(size, objectSize, q);
    var m := MinObjects(num, den, objectSize, grain);
    MulMonotone(q, m, den);
    MulMonotone(1, q, den);
  }

  /**
   * MIN_OBJECTS is the largest number of objects that fit in the allocation
   * grain or in the multiplier's worth of one object, whichever is more.
   */
  lemma MinObjectsIsLargest(num: nat, den: nat, objectSize: nat, grain: nat, m: nat)
    requires den > 0 && objectSize > 0
    ensures m <= MinObjects(num, den, objectSize, grain)
            <==> m * objectSize <= grain || (m * objectSize) * den <= num * objectSize
  {
    var wanted := (num * objectSize) / den;
    QuotientIff(num * objectSize, den, m * objectSize);
    QuotientIff(if grain > wanted then grain else wanted, objectSize, m);
  }

  lemma QuotientIff(n: nat, d: nat, q: nat)
    requires d > 0
    ensures q <= n / d <==> q * d <= n
  {
    if q * d <= n { QuotientAtLeast(n, d, q); }
    if q <= n / d {
      MulMonotone(q, n / d, d);
      assert n == (n / d) * d + n % d;
    }
  }

  lemma QuotientAtLeast(n: nat, d: nat, q: nat)
    requires d > 0 && n >= q * d
    ensures n / d >= q
  {
    var r := n / d;
    assert n == r * d + n % d && (r + 1) * d == r * d + d;
    if r < q {
      MulMonotone(r + 1, q, d);
    }
  }

  // ---------------------------------------------------------------------
  // Addresses
  // ---------------------------------------------------------------------

  function Bytes(p: Params, size: nat, i: nat): nat {
    MiniHeapSize(p, i) * size
  }

  predicate Owns(p: Params, size: nat, h: Heap, i: nat, ptr: nat) {
    i < |h.bases| && h.bases[i] <= ptr < h.bases[i] + Bytes(p, size, i)
  }

  function Address(size: nat, h: Heap, s: Slot): nat
    requires s.heap < |h.bases|
  {
    h.bases[s.heap] + s.index * size
  }

  predicate Active(p: Params, h: Heap, s: Slot) {
    s.heap < |h.bases| && s.index < MiniHeapSize(p, s.heap)
  }

  /** [a, a+n) and [b, b+m) have no address in common. */
  predicate Apart(a: nat, n: nat, b: nat, m: nat) {
    a + n <= b || b + m <= a
  }

  /** What the source relies on its allocator for: regions are aligned, apart from each other and not at null. */
  ghost predicate RegionsOk(p: Params, size: nat, h: Heap) {
    && (forall i :: 0 <= i < |h.bases| ==> h.bases[i] > 0 && h.bases[i] % ALIGNMENT == 0)
    && (forall i, j | 0 <= i < |h.bases| && 0 <= j < |h.bases| && i != j ::
          Apart(h.bases[i], Bytes(p, size, i), h.bases[j], Bytes(p, size, j)))
  }

  /** A region the allocator may give to the next miniheap. */
  ghost predicate FreshRegion(p: Params, size: nat, h: Heap, base: nat) {
    && base > 0 && base % ALIGNMENT == 0
    && forall i :: 0 <= i < |h.bases| ==>
         Apart(h.bases[i], Bytes(p, size, i), base, Bytes(p, size, |h.bases|))
  }

  /** inUse may exceed the load bound by the one object that was added after the last check. */
  predicate WithinLoad(p: Params, inUse: nat, available: nat) {
    inUse == 0 || p.num * (inUse - 1) < available * p.den
  }

  ghost predicate HeapOk(p: Params, size: nat, h: Heap) {
    && size > 0
    && RegionsOk(p, size, h)
    && (forall s | s in h.live :: Active(p, h, s))
    && WithinLoad(p, |h.live|, Capacity(p, |h.bases|))
  }

  lemma EmptyOk(p: Params, size: nat)
    requires size > 0
    ensures HeapOk(p, size, EMPTY)
  {
  }

  /** The slot whose bytes contain ptr: at most one when the regions are apart. */
  ghost function Target(p: Params, size: nat, h: Heap, ptr: nat): set<Slot>
    requires size > 0
  {
    set i: nat | i < |h.bases| && Owns(p, size, h, i, ptr) :: Slot(i, (ptr - h.bases[i]) / size)
  }

  lemma TargetUnique(p: Params, size: nat, h: Heap, ptr: nat, i: nat)
    requires HeapOk(p, size, h) && Owns(p, size, h, i, ptr)
    ensures Target(p, size, h, ptr) == {Slot(i, (ptr - h.bases[i]) / size)}
    ensures forall j: nat :: Owns(p, size, h, j, ptr) ==> j == i
  {
    forall j: nat | Owns(p, size, h, j, ptr)
      ensures j == i
    {
      assert j != i ==> Apart(h.bases[i], Bytes(p, size, i), h.bases[j], Bytes(p, size, j));
    }
    var t := Slot(i, (ptr - h.bases[i]) / size);
    assert t in Target(p, size, h, ptr);
  }

  /** Offset d inside an object divides back to the object's index. */
  lemma OffsetIndex(index: nat, size: nat, d: nat)
    requires d < size
    ensures (index * size + d) / size == index && (index * size + d) % size == d
  {
    DivModUnique(index * size + d, size, index, d);
  }

  /** Every byte of an active slot lies in that slot and in no other. */
  lemma TargetOfInterior(p: Params, size: nat, h: Heap, s: Slot, d: nat)
    requires HeapOk(p, size, h) && Active(p, h, s) && d < size
    ensures Owns(p, size, h, s.heap, Address(size, h, s) + d)
    ensures Target(p, size, h, Address(size, h, s) + d) == {s}
  {
    OffsetIndex(s.index, size, d);
    MulMonotone(s.index + 1, MiniHeapSize(p, s.heap), size);
    assert (s.index + 1) * size == s.index * size + size;
    TargetUnique(p, size, h, Address(size, h, s) + d, s.heap);
  }

  /** Different slots occupy different bytes. */
  lemma SlotsApart(p: Params, size: nat, h: Heap, s: Slot, t: Slot)
    requires HeapOk(p, size, h) && Active(p, h, s) && Active(p, h, t) && s != t
    ensures Apart(Address(size, h, s), size, Address(size, h, t), size)
  {
    if !Apart(Address(size, h, s), size, Address(size, h, t), size) {
      var a, b := Address(size, h, s), Address(size, h, t);
      if a <= b {
        TargetOfInterior(p, size, h, s, b - a);
        TargetOfInterior(p, size, h, t, 0);
      } else {
        TargetOfInterior(p, size, h, t, a - b);
        TargetOfInterior(p, size, h, s, 0);
      }
    }
  }

  /** Objects are aligned when their size is. */
  lemma SlotsAligned(p: Params, size: nat, h: Heap, s: Slot)
    requires HeapOk(p, size, h) && s.heap < |h.bases| && size % ALIGNMENT == 0
    ensures Address(size, h, s) % ALIGNMENT == 0
  {
    MultiplesAdd(h.bases[s.heap], size, s.index, ALIGNMENT);
  }

  lemma MultiplesAdd(base: nat, size: nat, index: nat, d: nat)
    requires d > 0 && base % d == 0 && size % d == 0
    ensures (base + index * size) % d == 0
  {
    var b, q := base / d, size / d;
    assert base == b * d && size == q * d;
    Reassociate(index, q, d);
    Distribute(b, index * q, d);
    DivModUnique(base + index * size, d, b + index * q, 0);
  }

  // ---------------------------------------------------------------------
  // Growth
  // ---------------------------------------------------------------------

  /** One more miniheap always restores the load bound. */
  lemma OneActivationSuffices(p: Params, k: nat, inUse: nat)
    requires ParamsOk(p) && WithinLoad(p, inUse, Capacity(p, k))
    ensures Enough(p, inUse, Capacity(p, k + 1))
  {
    if inUse == 0 {
      MulPositive(p.minObjects, Pow2(k));
      MulPositive(Capacity(p, k + 1), p.den);
    } else if k > 0 {
      LadderDoubles(p, k);
      LoadFits(p.num, p.den, inUse, Capacity(p, k), Capacity(p, k + 1), p.minObjects * p.den);
    }
  }

  lemma LoadFits(num: nat, den: nat, inUse: nat, capacity: nat, next: nat, first: nat)
    requires inUse > 0 && num * (inUse - 1) < capacity * den && first <= capacity * den && num < 2 * first
    requires next * den == capacity * den + capacity * den
    ensures num * inUse < next * den
  {
    NextObject(num, inUse);
    OneMoreFits(num * (inUse - 1), num, first, capacity * den, inUse);
  }

  lemma NextObject(num: nat, inUse: nat)
    requires inUse > 0
    ensures num * inUse == num * (inUse - 1) + num
    ensures inUse >= 2 ==> num <= num * (inUse - 1)
  {
    Distribute(inUse - 1, 1, num);
    if inUse >= 2 { MulMonotone(1, inUse - 1, num); }
  }

  /** A further miniheap doubles the load the heap may carry, which is never below that of the first. */
  lemma LadderDoubles(p: Params, k: nat)
    requires k > 0
    ensures Capacity(p, k + 1) * p.den == Capacity(p, k) * p.den + Capacity(p, k) * p.den
    ensures p.minObjects * p.den <= Capacity(p, k) * p.den
  {
    CapacityGrows(p, k);
    Distribute(Capacity(p, k), Capacity(p, k), p.den);
    MulMonotone(1, Pow2(k - 1), p.minObjects);
    MulMonotone(p.minObjects, Capacity(p, k), p.den);
  }

  /** The arithmetic of OneActivationSuffices, with the products named. */
  lemma OneMoreFits(before: nat, num: nat, first: nat, load: nat, inUse: nat)
    requires inUse >= 1 && before < load && first <= load && num < 2 * first
    requires inUse >= 2 ==> num <= before
    requires inUse == 1 ==> before == 0
    ensures before + num < load + load
  {
  }

  function Grown(h: Heap, base: nat): Heap {
    h.(bases := h.bases + [base])
  }

  lemma GrownOk(p: Params, size: nat, h: Heap, base: nat)
    requires ParamsOk(p) && HeapOk(p, size, h) && FreshRegion(p, size, h, base)
    ensures HeapOk(p, size, Grown(h, base))
  {
    OneActivationSuffices(p, |h.bases|, |h.live|);
    if |h.live| > 0 { MulMonotone(|h.live| - 1, |h.live|, p.num); }
  }

  // ---------------------------------------------------------------------
  // Allocating and freeing
  // ---------------------------------------------------------------------

  predicate MustGrow(p: Params, h: Heap) {
    !Enough(p, |h.live|, Capacity(p, |h.bases|))
  }

  /** The heap after malloc's growth check. */
  function Ready(p: Params, h: Heap, base: nat): Heap {
    if MustGrow(p, h) then Grown(h, base) else h
  }

  function Allocated(h: Heap, s: Slot): Heap {
    h.(live := h.live + {s})
  }

  ghost function Freed(p: Params, size: nat, h: Heap, ptr: nat): Heap
    requires size > 0
  {
    h.(live := h.live - Target(p, size, h, ptr))
  }

  lemma ReadyOk(p: Params, size: nat, h: Heap, base: nat)
    requires ParamsOk(p) && HeapOk(p, size, h) && (MustGrow(p, h) ==> FreshRegion(p, size, h, base))
    ensures var r := Ready(p, h, base);
            && HeapOk(p, size, r) && !MustGrow(p, r) && |r.bases| > 0 && r.live == h.live
            && |r.live| < Capacity(p, |r.bases|)
  {
    if MustGrow(p, h) {
      GrownOk(p, size, h, base);
      OneActivationSuffices(p, |h.bases|, |h.live|);
    }
    var r := Ready(p, h, base);
    if |r.live| >= Capacity(p, |r.bases|) {
      MulMonotone(Capacity(p, |r.bases|), |r.live|, p.num);
      MulMonotone(p.den, p.num, Capacity(p, |r.bases|));
    }
  }

  lemma AllocatedOk(p: Params, size: nat, h: Heap, s: Slot)
    requires HeapOk(p, size, h) && !MustGrow(p, h) && Active(p, h, s) && s !in h.live
    ensures HeapOk(p, size, Allocated(h, s)) && |Allocated(h, s).live| == |h.live| + 1
  {
  }

  lemma FreedOk(p: Params, size: nat, h: Heap, ptr: nat)
    requires HeapOk(p, size, h)
    ensures HeapOk(p, size, Freed(p, size, h, ptr))
    ensures var dead := Target(p, size, h, ptr) * h.live;
            |dead| <= 1 && |Freed(p, size, h, ptr).live| == |h.live| - (if dead == {} then 0 else 1)
  {
    var t := Target(p, size, h, ptr);
    var dead := t * h.live;
    if i: nat :| Owns(p, size, h, i, ptr) {
      TargetUnique(p, size, h, ptr, i);
      assert |t| == 1;
      if dead != {} { assert dead == t; } else { assert |dead| == 0; }
    } else {
      assert t == {};
      assert |dead| == 0;
    }
    assert h.live - t == h.live - dead;
    LessLoad(p, |h.live - t|, |h.live|, Capacity(p, |h.bases|));
  }

  lemma LessLoad(p: Params, n: nat, m: nat, available: nat)
    requires n <= m && WithinLoad(p, m, available)
    ensures WithinLoad(p, n, available)
  {
    if n > 0 { MulMonotone(n - 1, m - 1, p.num); }
  }

  // ---------------------------------------------------------------------
  // Whole runs of one heap
  // ---------------------------------------------------------------------

  datatype Event = Malloc(slot: Slot, region: nat) | Free(ptr: nat)

  ghost predicate Allowed(p: Params, size: nat, h: Heap, e: Event) {
    match e
    case Malloc(s, region) =>
      && (MustGrow(p, h) ==> FreshRegion(p, size, h, region))
      && Active(p, Ready(p, h, region), s) && s !in h.live
    case Free(_) => true
  }

  ghost function Apply(p: Params, size: nat, h: Heap, e: Event): Heap
    requires size > 0
  {
    match e
    case Malloc(s, region) => Allocated(Ready(p, h, region), s)
    case Free(ptr) => Freed(p, size, h, ptr)
  }

  ghost predicate IsRun(p: Params, size: nat, run: seq<Heap>, events: seq<Event>)
    requires size > 0
  {
    && |run| == |events| + 1 && run[0] == EMPTY
    && forall i :: 0 <= i < |events| ==>
         Allowed(p, size, run[i], events[i]) && run[i + 1] == Apply(p, size, run[i], events[i])
  }

  lemma {:induction false} RunOk(p: Params, size: nat, run: seq<Heap>, events: seq<Event>, n: nat)
    requires ParamsOk(p) && size > 0 && IsRun(p, size, run, events) && n < |run|
    ensures HeapOk(p, size, run[n])
  {
    if n > 0 {
      RunOk(p, size, run, events, n - 1);
      match events[n - 1]
      case Malloc(s, region) =>
        ReadyOk(p, size, run[n - 1], region);
        AllocatedOk(p, size, Ready(p, run[n - 1], region), s);
      case Free(ptr) => FreedOk(p, size, run[n - 1], ptr);
    }
  }

  /** In every run of mallocs and frees, live objects never overlap. */
  lemma LiveObjectsApart(p: Params, size: nat, run: seq<Heap>, events: seq<Event>, n: nat, s: Slot, t: Slot)
    requires ParamsOk(p) && size > 0 && IsRun(p, size, run, events) && n < |run|
    requires s in run[n].live && t in run[n].live && s != t
    ensures Active(p, run[n], s) && Active(p, run[n], t)
    ensures Apart(Address(size, run[n], s), size, Address(size, run[n], t), size)
  {
    RunOk(p, size, run, events, n);
    SlotsApart(p, size, run[n], s, t);
  }

  /** A free of any byte of a live object ends that object and no other. */
  lemma FreeEndsOneObject(p: Params, size: nat, run: seq<Heap>, events: seq<Event>, n: nat, s: Slot, d: nat)
    requires ParamsOk(p) && size > 0 && IsRun(p, size, run, events) && n < |run|
    requires s in run[n].live && d < size
    ensures s.heap < |run[n].bases|
    ensures Freed(p, size, run[n], Address(size, run[n], s) + d) == run[n].(live := run[n].live - {s})
    ensures |run[n].live - {s}| == |run[n].live| - 1
  {
    RunOk(p, size, run, events, n);
    TargetOfInterior(p, size, run[n], s, d);
  }

  predicate HoldsByte(size: nat, h: Heap, s: Slot, ptr: nat) {
    s.heap < |h.bases| && Address(size, h, s) <= ptr < Address(size, h, s) + size
  }

  /** A free of an address outside every live object, a second free among them, changes nothing. */
  lemma OtherFreesDoNothing(p: Params, size: nat, h: Heap, ptr: nat)
    requires size > 0
    requires forall s | s in h.live :: !HoldsByte(size, h, s, ptr)
    ensures Freed(p, size, h, ptr) == h
  {
    forall s | s in Target(p, size, h, ptr)
      ensures s !in h.live
    {
      TargetHoldsByte(p, size, h, ptr, s);
    }
    assert h.live - Target(p, size, h, ptr) == h.live;
  }

  lemma TargetHoldsByte(p: Params, size: nat, h: Heap, ptr: nat, s: Slot)
    requires size > 0 && s in Target(p, size, h, ptr)
    ensures HoldsByte(size, h, s, ptr)
  {
    var off := ptr - h.bases[s.heap];
    assert off == (off / size) * size + off % size;
  }

  /** A new object is aligned and overlaps no live object, and the number of live objects grows by one. */
  lemma MallocSafety(p: Params, size: nat, run: seq<Heap>, events: seq<Event>, n: nat)
    requires ParamsOk(p) && size > 0 && IsRun(p, size, run, events) && n < |events| && events[n].Malloc?
    ensures var h, h', s := run[n], run[n + 1], events[n].slot;
            && h.bases <= h'.bases && s in h'.live && |h'.live| == |h.live| + 1 && s.heap < |h'.bases|
            && (size % ALIGNMENT == 0 ==> Address(size, h', s) % ALIGNMENT == 0)
            && (forall t | t in h.live :: s.heap < |h'.bases| && t.heap < |h.bases| &&
                  Address(size, h', t) == Address(size, h, t)
                  && Apart(Address(size, h', s), size, Address(size, h', t), size))
  {
    RunOk(p, size, run, events, n);
    RunOk(p, size, run, events, n + 1);
    var h, h', s := run[n], run[n + 1], events[n].slot;
    assert h' == Apply(p, size, h, events[n]);
    assert Active(p, h', s);
    if size % ALIGNMENT == 0 { SlotsAligned(p, size, h', s); }
    forall t | t in h.live
      ensures s.heap < |h'.bases| && t.heap < |h.bases| &&
              Address(size, h', t) == Address(size, h, t)
              && Apart(Address(size, h', s), size, Address(size, h', t), size)
    {
      assert Active(p, h, t);
      SlotsApart(p, size, h', s, t);
    }
  }

  /** How many miniheaps are active after the given number of turns of the growth loop. */
  function LadderAfter(p: Params, k: nat, turns: nat): nat {
    if turns == 0 then k
    else var j := LadderAfter(p, k, turns - 1); if j < p.maxHeaps then j + 1 else j
  }

  lemma {:induction false} LadderStaysFull(p: Params, turns: nat)
    ensures LadderAfter(p, p.maxHeaps, turns) == p.maxHeaps
  {
    if turns > 0 { LadderStaysFull(p, turns - 1); }
  }

  /**
   * growHeapIfNeeded returns exactly when the load test passes at once or a
   * miniheap is left to activate; with the whole ladder active and the test
   * failing it loops for ever.
   */
  lemma GrowthLoopEnds(p: Params, size: nat, h: Heap)
    requires ParamsOk(p) && HeapOk(p, size, h) && |h.bases| <= p.maxHeaps
    ensures (exists turns: nat :: Enough(p, |h.live|, Capacity(p, LadderAfter(p, |h.bases|, turns))))
            <==> !MustGrow(p, h) || |h.bases| < p.maxHeaps
  {
    var k := |h.bases|;
    if !MustGrow(p, h) {
      assert Enough(p, |h.live|, Capacity(p, LadderAfter(p, k, 0)));
    } else if k < p.maxHeaps {
      OneActivationSuffices(p, k, |h.live|);
      assert LadderAfter(p, k, 1) == LadderAfter(p, k, 0) + 1;
      assert Enough(p, |h.live|, Capacity(p, LadderAfter(p, k, 1)));
    } else {
      forall turns: nat
        ensures !Enough(p, |h.live|, Capacity(p, LadderAfter(p, k, turns)))
      {
        LadderStaysFull(p, turns);
      }
    }
  }

  // ---------------------------------------------------------------------
  // A run that ends in the loop
  // ---------------------------------------------------------------------

  /** All regions of the heap end by top. */
  ghost predicate Below(p: Params, size: nat, h: Heap, top: nat) {
    forall i :: 0 <= i < |h.bases| ==> h.bases[i] + Bytes(p, size, i) <= top
  }

  /** A region behind all others. */
  function NextRegion(top: nat): nat {
    (top + 1) * ALIGNMENT
  }

  lemma NextRegionFresh(p: Params, size: nat, h: Heap, top: nat)
    requires Below(p, size, h, top)
    ensures FreshRegion(p, size, h, NextRegion(top))
    ensures Below(p, size, Grown(h, NextRegion(top)), NextRegion(top) + Bytes(p, size, |h.bases|))
  {
  }

  /** Under the load bound some slot is free. */
  lemma FreeSlot(p: Params, size: nat, h: Heap) returns (s: Slot)
    requires ParamsOk(p) && HeapOk(p, size, h) && |h.bases| > 0 && !MustGrow(p, h)
    ensures Active(p, h, s) && s !in h.live
  {
    var k := |h.bases| - 1;
    var r := MiniHeapSize(p, k);
    if k > 0 { MulPositive(p.minObjects, Pow2(k - 1)); }
    var w := r * Pow2(k);
    Multiple(Pow2(k), r);
    CollisionsBounded(p, k, r, w, h.live);
    var a: nat, b: nat :| Pair(w, a, b) && Lands(p, k, a, b) !in h.live;
    LandsActive(p, k, a, b);
    s := Lands(p, k, a, b);
  }

  lemma Multiple(q: nat, d: nat)
    requires d > 0
    ensures (d * q) % d == 0
  {
    DivModUnique(d * q, d, q, 0);
  }

  /** One malloc more, in a region behind all others if the heap must grow. */
  lemma MallocAgain(p: Params, size: nat, h: Heap, top: nat) returns (e: Event, top': nat)
    requires ParamsOk(p) && HeapOk(p, size, h) && Below(p, size, h, top)
    ensures e.Malloc? && Allowed(p, size, h, e)
    ensures var h' := Apply(p, size, h, e);
            && HeapOk(p, size, h') && Below(p, size, h', top') && |h'.live| == |h.live| + 1
            && |h'.bases| == |h.bases| + (if MustGrow(p, h) then 1 else 0)
            && |h.live| < Capacity(p, |h'.bases|)
  {
    var region := NextRegion(top);
    NextRegionFresh(p, size, h, top);
    ReadyOk(p, size, h, region);
    var r := Ready(p, h, region);
    var s := FreeSlot(p, size, r);
    AllocatedOk(p, size, r, s);
    e := Event.Malloc(s, region);
    top' := if MustGrow(p, h) then region + Bytes(p, size, |h.bases|) else top;
  }

  lemma RunExtends(p: Params, size: nat, run: seq<Heap>, events: seq<Event>, e: Event)
    requires size > 0 && IsRun(p, size, run, events) && Allowed(p, size, run[|events|], e)
    ensures IsRun(p, size, run + [Apply(p, size, run[|events|], e)], events + [e])
  {
  }

  /** Malloc after malloc, the heap comes to have all its miniheaps and no room under the load bound. */
  lemma {:induction false} FillUp(p: Params, size: nat, run: seq<Heap>, events: seq<Event>, top: nat)
    returns (run': seq<Heap>, events': seq<Event>)
    requires ParamsOk(p) && size > 0 && IsRun(p, size, run, events)
    requires var h := run[|events|]; HeapOk(p, size, h) && |h.bases| <= p.maxHeaps && Below(p, size, h, top)
    ensures IsRun(p, size, run', events') && (forall e | e in events' :: e in events || e.Malloc?)
    ensures var h := run'[|events'|]; |h.bases| == p.maxHeaps && MustGrow(p, h)
    decreases p.maxHeaps - |run[|events|].bases|, Capacity(p, |run[|events|].bases|) - |run[|events|].live|
  {
    var h := run[|events|];
    if |h.bases| == p.maxHeaps && MustGrow(p, h) {
      run', events' := run, events;
    } else {
      var e, top' := MallocAgain(p, size, h, top);
      RunExtends(p, size, run, events, e);
      run', events' := FillUp(p, size, run + [Apply(p, size, h, e)], events + [e], top');
    }
  }

  /** Mallocs alone can bring any heap to where growHeapIfNeeded loops for ever. */
  lemma GrowthLoopCanHang(p: Params, size: nat) returns (run: seq<Heap>, events: seq<Event>)
    requires ParamsOk(p) && size > 0
    ensures IsRun(p, size, run, events) && (forall e | e in events :: e.Malloc?)
    ensures var h := run[|events|];
            && |h.bases| == p.maxHeaps && MustGrow(p, h)
            && !exists turns: nat :: Enough(p, |h.live|, Capacity(p, LadderAfter(p, |h.bases|, turns)))
  {
    EmptyOk(p, size);
    run, events := FillUp(p, size, [EMPTY], [], 0);
    RunOk(p, size, run, events, |events|);
    GrowthLoopEnds(p, size, run[|events|]);
  }
}
