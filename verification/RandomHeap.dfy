/**
 * A miniheap and a size-class heap in place (RandomMiniHeapCore and
 * RandomMiniHeapDieHard in src/include/randomminiheap-core.h and
 * randomminiheap-diehard.h; RandomHeap in src/include/randomheap.h), used by
 * one thread at a time.
 */
module RandomHeaps {
  import opened PowersOfTwo
  import opened Log2
  import opened BitMaps
  import opened Growth
  import opened Placement
  import opened HeapSpec

  class RandomMiniHeap {
    const objectSize: nat
    const numObjects: nat
    const bitmap: BitMap
    var base: nat
    var isActivated: bool

    ghost function Repr(): set<object>
      reads this, bitmap
    {
      {this, bitmap, bitmap.words}
    }

    /** Indices of the slots in use. */
    ghost function Live(): set<nat>
      reads this, bitmap, bitmap.words
    {
      bitmap.Contents()
    }

    ghost predicate Valid()
      reads this, bitmap, bitmap.words
    {
      && objectSize > 0 && numObjects > 0
      && (isActivated ==> base > 0 && numObjects <= bitmap.Elements())
      && (!isActivated ==> base == 0 && Live() == {})
      && forall i | i in Live() :: i < numObjects
    }

    constructor (objectSize: nat, numObjects: nat)
      requires objectSize > 0 && numObjects > 0
      ensures Valid() && !isActivated && fresh(Repr())
      ensures this.objectSize == objectSize && this.numObjects == numObjects
    {
      this.objectSize := objectSize;
      this.numObjects := numObjects;
      bitmap := new BitMap();
      base := 0;
      isActivated := false;
    }

    /** region is the memory the allocator hands over. */
    method Activate(region: nat)
      requires Valid() && region > 0
      modifies this, bitmap
      ensures Valid() && isActivated
      ensures old(isActivated) ==> base == old(base) && bitmap.words == old(bitmap.words)
      ensures !old(isActivated) ==> base == region && Live() == {} && fresh(bitmap.words)
    {
      if !isActivated {
        base := region;
        bitmap.Reserve(numObjects);
        isActivated := true;
      }
    }

    /** Null when the drawn slot is taken. */
    method Malloc(draw: nat) returns (ptr: nat)
      requires Valid() && isActivated
      modifies bitmap.words
      ensures Valid()
      ensures var index := draw % numObjects;
              && (ptr == 0 <==> index in old(Live()))
              && (ptr != 0 ==> ptr == base + index * objectSize)
              && Live() == old(Live()) + {index}
    {
      var index := draw % numObjects;
      var claimed := bitmap.TryToSet(index);
      assert forall i | i in Live() :: i in old(Live()) || i == index;
      if !claimed {
        return 0;
      }
      ptr := GetObject(index);
    }

    function GetObject(index: nat): (ptr: nat)
      requires index < numObjects
      reads this
      ensures ptr >= base || !isActivated
    {
      MulMonotone(0, index, objectSize);
      if isActivated then base + index * objectSize else 0
    }

    predicate InBounds(ptr: nat)
      reads this
    {
      !(ptr < base || ptr >= base + numObjects * objectSize || base == 0)
    }

    function ComputeIndex(ptr: nat): (index: nat)
      requires InBounds(ptr) && objectSize > 0
      reads this
      ensures index < numObjects
      ensures base + index * objectSize <= ptr < base + index * objectSize + objectSize
    {
      var offset := ptr - base;
      var index := offset / objectSize;
      IndexInBounds(offset, objectSize, numObjects);
      index
    }

    /** An interior pointer frees the slot that contains it. */
    method Free(ptr: nat) returns (didFree: bool)
      requires Valid()
      modifies bitmap.words
      ensures Valid()
      ensures !InBounds(ptr) ==> !didFree && Live() == old(Live())
      ensures InBounds(ptr) ==>
                && (didFree <==> ComputeIndex(ptr) in old(Live()))
                && Live() == old(Live()) - {ComputeIndex(ptr)}
    {
      if !InBounds(ptr) {
        return false;
      }
      var index := ComputeIndex(ptr);
      didFree := bitmap.Reset(index);
      assert forall i | i in Live() :: i in old(Live());
    }

    /** The bytes from ptr to the end of its slot, or zero when ptr is not in this miniheap. */
    function GetSize(ptr: nat): (remaining: nat)
      requires objectSize > 0
      reads this
      ensures remaining == 0 <==> !InBounds(ptr)
      ensures InBounds(ptr) ==> ptr + remaining == base + ComputeIndex(ptr) * objectSize + objectSize
    {
      if !InBounds(ptr) then 0
      else
        RestOfSlot(ptr - base, objectSize);
        objectSize - (ptr - base) % objectSize
    }
  }

  lemma RestOfSlot(offset: nat, size: nat)
    requires size > 0
    ensures offset + (size - offset % size) == (offset / size) * size + size
  {
    assert offset == (offset / size) * size + offset % size;
  }

  lemma IndexInBounds(offset: nat, size: nat, n: nat)
    requires size > 0 && offset < n * size
    ensures offset / size < n
    ensures (offset / size) * size <= offset < (offset / size) * size + size
  {
    var q := offset / size;
    assert offset == q * size + offset % size;
    if q >= n { MulMonotone(n, q, size); }
  }

  /** One random number for the miniheap and one for the slot. */
  datatype Draw = Draw(heap: nat, slot: nat)

  /** The slot that the i-th pair of draws selects while miniheaps 0..k are active. */
  function SlotOf(p: Params, k: nat, draws: seq<Draw>, i: nat): Slot
    requires p.minObjects > 0 && i < |draws|
  {
    Lands(p, k, draws[i].heap, draws[i].slot)
  }

  /** Draw i is the first that selects a slot that is not live. */
  predicate IsFirstFree(p: Params, k: nat, draws: seq<Draw>, live: set<Slot>, i: nat)
    requires p.minObjects > 0 && i < |draws|
  {
    SlotOf(p, k, draws, i) !in live && forall j | 0 <= j < i :: SlotOf(p, k, draws, j) in live
  }

  /** What the retry loop of malloc makes of heap h: the first draw that finds a free slot decides. */
  ghost predicate Drawn(p: Params, size: nat, h: Heap, h': Heap, draws: seq<Draw>, ptr: nat)
    requires p.minObjects > 0
  {
    && h'.bases == h.bases != []
    && var k := |h.bases| - 1;
       && (ptr == 0 <==> forall i | 0 <= i < |draws| :: SlotOf(p, k, draws, i) in h.live)
       && (ptr == 0 ==> h'.live == h.live)
       && forall i | 0 <= i < |draws| && IsFirstFree(p, k, draws, h.live, i) ::
            var s := SlotOf(p, k, draws, i);
            Active(p, h, s) && ptr == Address(size, h, s) && h'.live == h.live + {s}
  }

  /**
   * What malloc makes of heap h.  It activates one more miniheap if and only if
   * the load test fails; then the first draw that finds a free slot decides.
   */
  ghost predicate Served(p: Params, size: nat, h: Heap, h': Heap, draws: seq<Draw>, region: nat, ptr: nat)
    requires p.minObjects > 0
  {
    var bases := if p.num * |h.live| < Capacity(p, |h.bases|) * p.den then h.bases else h.bases + [region];
    Drawn(p, size, Heap(bases, h.live), h', draws, ptr)
  }

  lemma {:induction false} SomeDrawIsFirst(p: Params, k: nat, draws: seq<Draw>, live: set<Slot>, i: nat) returns (j: nat)
    requires p.minObjects > 0 && i < |draws| && SlotOf(p, k, draws, i) !in live
    ensures j <= i && IsFirstFree(p, k, draws, live, j)
  {
    j := i;
    if h :| 0 <= h < i && SlotOf(p, k, draws, h) !in live {
      j := SomeDrawIsFirst(p, k, draws, live, h);
    }
  }

  lemma DrawnAt(p: Params, size: nat, h: Heap, draws: seq<Draw>, i: nat)
    requires p.minObjects > 0 && i < |draws| && h.bases != [] && IsFirstFree(p, |h.bases| - 1, draws, h.live, i)
    requires var s := SlotOf(p, |h.bases| - 1, draws, i); Active(p, h, s) && Address(size, h, s) != 0
    ensures var s := SlotOf(p, |h.bases| - 1, draws, i);
            Drawn(p, size, h, Allocated(h, s), draws, Address(size, h, s))
  {
    var k := |h.bases| - 1;
    forall j | 0 <= j < |draws| && IsFirstFree(p, k, draws, h.live, j)
      ensures j == i
    {
    }
  }

  lemma NoneDrawn(p: Params, size: nat, h: Heap, draws: seq<Draw>)
    requires p.minObjects > 0 && h.bases != []
    requires var k := |h.bases| - 1; forall j | 0 <= j < |draws| :: SlotOf(p, k, draws, j) in h.live
    ensures Drawn(p, size, h, h, draws, 0)
  {
  }

  /** What malloc hands out is the address of an active slot. */
  lemma ServedSlot(p: Params, size: nat, h: Heap, h': Heap, draws: seq<Draw>, region: nat, ptr: nat) returns (s: Slot)
    requires p.minObjects > 0 && Served(p, size, h, h', draws, region, ptr) && ptr != 0
    ensures Active(p, h', s) && s !in h.live && ptr == Address(size, h', s)
  {
    s := DrawnSlot(p, size, Heap(h'.bases, h.live), h', draws, ptr);
  }

  /** When malloc found a slot, the heap has gained a slot that was not live, and ptr is its address. */
  lemma DrawnSlot(p: Params, size: nat, h: Heap, h': Heap, draws: seq<Draw>, ptr: nat) returns (s: Slot)
    requires p.minObjects > 0 && Drawn(p, size, h, h', draws, ptr) && ptr != 0
    ensures Active(p, h, s) && s !in h.live && ptr == Address(size, h, s) && h' == Allocated(h, s)
  {
    var k := |h.bases| - 1;
    var i :| 0 <= i < |draws| && SlotOf(p, k, draws, i) !in h.live;
    var j := SomeDrawIsFirst(p, k, draws, h.live, i);
    s := SlotOf(p, k, draws, j);
  }

  /** Two miniheaps share no object. */
  ghost predicate Separate(a: RandomMiniHeap, b: RandomMiniHeap)
    reads a.bitmap, b.bitmap
  {
    a != b && a.bitmap != b.bitmap && a.bitmap.words != b.bitmap.words
  }

  /** The ladder of miniheaps, none of them active. */
  method MakeMiniHeaps(p: Params, objectSize: nat) returns (minis: seq<RandomMiniHeap>, ghost owned: set<object>)
    requires p.minObjects > 0 && objectSize > 0
    ensures |minis| == p.maxHeaps && fresh(owned)
    ensures forall i :: 0 <= i < |minis| ==>
              && minis[i].Valid() && minis[i].objectSize == objectSize && !minis[i].isActivated
              && minis[i].numObjects == MiniHeapSize(p, i) && minis[i].Repr() <= owned
    ensures forall i, j :: 0 <= i < |minis| && 0 <= j < |minis| && i != j ==> Separate(minis[i], minis[j])
  {
    minis := [];
    owned := {};
    while |minis| < p.maxHeaps
      invariant |minis| <= p.maxHeaps && fresh(owned)
      invariant forall i :: 0 <= i < |minis| ==>
                  && minis[i].Valid() && minis[i].objectSize == objectSize && !minis[i].isActivated
                  && minis[i].numObjects == MiniHeapSize(p, i) && minis[i].Repr() <= owned
      invariant forall i, j :: 0 <= i < |minis| && 0 <= j < |minis| && i != j ==> Separate(minis[i], minis[j])
    {
      SizeIsScaledWidth(p, |minis|);
      var m := new RandomMiniHeap(objectSize, MiniHeapSize(p, |minis|));
      minis := minis + [m];
      owned := owned + m.Repr();
    }
  }

  class RandomHeap {
    const params: Params
    const objectSize: nat
    const minis: seq<RandomMiniHeap>
    var available: nat
    var inUse: nat
    var miniHeapsInUse: nat
    var chunksInUse: nat
    var cachedMiniHeap: int

    /** The regions of the active miniheaps and the slots in use: everything but caches and counters. */
    ghost var model: Heap

    /** Every object this heap is made of. */
    ghost var Repr: set<object>

    ghost function Bitmaps(): set<BitMap> {
      set m | m in minis :: m.bitmap
    }

    ghost function Words(): set<object>
      reads Bitmaps()
    {
      set m | m in minis :: m.bitmap.words
    }

    /** Miniheap i has its place on the ladder, is active iff i < miniHeapsInUse, and is what the model says. */
    ghost predicate MiniOk(i: nat)
      requires i < |minis|
      reads `model, `miniHeapsInUse, minis[i], minis[i].bitmap, minis[i].bitmap.words
    {
      var m := minis[i];
      && m.Valid() && m.objectSize == objectSize && m.numObjects == MiniHeapSize(params, i)
      && (m.isActivated <==> i < miniHeapsInUse)
      && (i < miniHeapsInUse == |model.bases| ==> model.bases[i] == m.base)
      && forall j :: Slot(i, j) in model.live <==> i < miniHeapsInUse && j in m.Live()
    }

    /** The miniheaps are separate objects, and the model is about the first miniHeapsInUse of them. */
    ghost predicate MinisOk()
      reads `model, `miniHeapsInUse, minis, Bitmaps(), Words()
    {
      && |minis| == params.maxHeaps && |model.bases| == miniHeapsInUse <= |minis|
      && (forall i :: 0 <= i < |minis| ==> MiniOk(i))
      && (forall i, j :: 0 <= i < |minis| && 0 <= j < |minis| && i != j ==> Separate(minis[i], minis[j]))
      && (forall s | s in model.live :: s.heap < miniHeapsInUse)
    }

    ghost predicate CountersOk()
      reads this
    {
      && ParamsOk(params)
      && HeapOk(params, objectSize, model)
      && available == Capacity(params, miniHeapsInUse)
      && chunksInUse == Chunks(miniHeapsInUse)
      && inUse == |model.live|
    }

    ghost predicate Valid()
      reads this, Repr
      ensures Valid() ==> this in Repr
    {
      && this in Repr
      && (forall m | m in minis :: m in Repr && m.bitmap in Repr)
      && Words() <= Repr
      && MinisOk() && CountersOk()
    }

    constructor (params: Params, objectSize: nat)
      requires ParamsOk(params) && objectSize > 0
      ensures Valid() && model == EMPTY && fresh(Repr)
      ensures this.params == params && this.objectSize == objectSize
    {
      this.params := params;
      this.objectSize := objectSize;
      available, inUse, miniHeapsInUse, chunksInUse, cachedMiniHeap := 0, 0, 0, 0, -1;
      var made, owned := MakeMiniHeaps(params, objectSize);
      minis := made;
      Repr := {this} + owned;
      model := EMPTY;
      new;
      EmptyOk(params, objectSize);
      assert forall i :: 0 <= i < |minis| ==> MiniOk(i);
      assert MinisOk();
    }

    /** Activates the next miniheap; called with the growth test failing. */
    method GetAnotherMiniHeap(region: nat)
      requires Valid() && MustGrow(params, model) && FreshRegion(params, objectSize, model, region)
      modifies this, minis, Bitmaps()
      ensures Valid() && inUse == old(inUse)
      ensures old(Repr) <= Repr && fresh(Repr - old(Repr))
      ensures model == if old(miniHeapsInUse) < params.maxHeaps then Grown(old(model), region) else old(model)
    {
      var currentHeaps := miniHeapsInUse;
      if currentHeaps < params.maxHeaps {
        var newAvailable;
        if currentHeaps == 0 {
          newAvailable := available + params.minObjects;
        } else {
          newAvailable := available + Pow2(currentHeaps - 1) * params.minObjects;
        }
        CapacityGrows(params, currentHeaps);
        GrownOk(params, objectSize, model, region);
        ActivateMini(currentHeaps, region);
        Publish(newAvailable, Pow2(currentHeaps) - 1);
      }
    }

    /** Stores the new counters; the miniheaps do not notice. */
    method Publish(newAvailable: nat, newChunks: nat)
      requires MinisOk()
      modifies `available, `chunksInUse, `Repr
      ensures MinisOk() && Words() == old(Words())
      ensures available == newAvailable && chunksInUse == newChunks && Repr == old(Repr) + Words()
    {
      available := newAvailable;
      chunksInUse := newChunks;
      Repr := Repr + Words();
    }

    /** Gives miniheap k its region and counts it as in use. */
    method ActivateMini(k: nat, region: nat)
      requires MinisOk() && k == miniHeapsInUse < |minis| && region > 0
      modifies `model, `miniHeapsInUse, minis[k], minis[k].bitmap
      ensures MinisOk() && miniHeapsInUse == k + 1 && model == Grown(old(model), region)
      ensures fresh(Words() - old(Words()))
    {
      assert MiniOk(k);
      minis[k].Activate(region);
      model := Grown(model, region);
      miniHeapsInUse := k + 1;
      forall i | 0 <= i < |minis|
        ensures MiniOk(i)
      {
        assert old(MiniOk(i));
      }
    }

    /** The loop runs at most once; without a miniheap left to activate it would not end. */
    method GrowHeapIfNeeded(region: nat)
      requires Valid()
      requires MustGrow(params, model) ==>
                 miniHeapsInUse < params.maxHeaps && FreshRegion(params, objectSize, model, region)
      modifies this, minis, Bitmaps()
      ensures Valid() && inUse == old(inUse) && model == Ready(params, old(model), region)
      ensures old(Repr) <= Repr && fresh(Repr - old(Repr))
    {
      ghost var h := model;
      if MustGrow(params, h) { OneActivationSuffices(params, |h.bases|, |h.live|); }
      while params.num * inUse >= available * params.den
        invariant Valid() && inUse == old(inUse) && old(Repr) <= Repr && fresh(Repr - old(Repr))
        invariant model == Ready(params, h, region) || (model == h && MustGrow(params, h))
        decreases if model == h && MustGrow(params, h) then 1 else 0
      {
        GetAnotherMiniHeap(region);
      }
    }

    /** One attempt: a draw for the miniheap, a draw for the slot; null when the slot is taken. */
    method GetObject(draw: Draw) returns (ptr: nat)
      requires MinisOk() && HeapOk(params, objectSize, model) && ParamsOk(params)
      requires miniHeapsInUse > 0 && chunksInUse == Chunks(miniHeapsInUse)
      modifies `model, Words()
      ensures MinisOk() && Words() == old(Words())
      ensures var s := Lands(params, miniHeapsInUse - 1, draw.heap, draw.slot);
              && Active(params, model, s)
              && (ptr == 0 <==> s in old(model).live)
              && (ptr != 0 ==> ptr == Address(objectSize, model, s))
              && model == Allocated(old(model), s)
    {
      var v := draw.heap % (chunksInUse + 1);
      var index := CeilLog2(v + 1);
      LandsActive(params, miniHeapsInUse - 1, draw.heap, draw.slot);
      ptr := MallocFrom(index, draw.slot);
    }

    /** One malloc attempt on miniheap i, seen from the whole heap. */
    method MallocFrom(i: nat, draw: nat) returns (ptr: nat)
      requires MinisOk() && i < miniHeapsInUse && (forall j :: 0 <= j < miniHeapsInUse ==> model.bases[j] > 0)
      modifies `model, Words()
      ensures MinisOk() && Words() == old(Words()) && MiniHeapSize(params, i) > 0
      ensures var s := Slot(i, draw % MiniHeapSize(params, i));
              && (ptr == 0 <==> s in old(model).live)
              && (ptr != 0 ==> ptr == Address(objectSize, old(model), s))
              && model == Allocated(old(model), s)
    {
      assert MiniOk(i);
      ptr := minis[i].Malloc(draw);
      model := Allocated(model, Slot(i, draw % MiniHeapSize(params, i)));
      forall j | 0 <= j < |minis|
        ensures MiniOk(j)
      {
        assert old(MiniOk(j));
      }
    }

    /** Draws until a slot is free; null when the draws run out first. */
    method Retry(draws: seq<Draw>) returns (ptr: nat)
      requires MinisOk() && HeapOk(params, objectSize, model) && ParamsOk(params)
      requires miniHeapsInUse > 0 && chunksInUse == Chunks(miniHeapsInUse)
      modifies `model, Words()
      ensures MinisOk() && Words() == old(Words())
      ensures Drawn(params, objectSize, old(model), model, draws, ptr)
    {
      ghost var h, k := model, miniHeapsInUse - 1;
      ptr := 0;
      var i := 0;
      while i < |draws|
        invariant 0 <= i <= |draws| && MinisOk() && Words() == old(Words()) && model == h
        invariant forall j | 0 <= j < i :: SlotOf(params, k, draws, j) in h.live
      {
        ghost var s := SlotOf(params, k, draws, i);
        ptr := GetObject(draws[i]);
        if ptr != 0 {
          DrawnAt(params, objectSize, h, draws, i);
          return;
        }
        assert model.live == h.live;
        i := i + 1;
      }
      ptr := 0;
      NoneDrawn(params, objectSize, h, draws);
    }

    /**
     * Allocates with the given draws, after activating one more miniheap if the
     * load test asks for it.  Null means every draw collided, and the source
     * would go on drawing.
     */
    method Malloc(draws: seq<Draw>, region: nat) returns (ptr: nat)
      requires Valid()
      requires MustGrow(params, model) ==>
                 miniHeapsInUse < params.maxHeaps && FreshRegion(params, objectSize, model, region)
      modifies Repr
      ensures Valid() && old(Repr) <= Repr && fresh(Repr - old(Repr))
      ensures Served(params, objectSize, old(model), model, draws, region, ptr)
    {
      ReadyOk(params, objectSize, model, region);
      if params.num * inUse >= available * params.den {
        GrowHeapIfNeeded(region);
      }
      ptr := Take(draws);
    }

    /** malloc after its growth check. */
    method Take(draws: seq<Draw>) returns (ptr: nat)
      requires Valid() && miniHeapsInUse > 0 && !MustGrow(params, model)
      modifies `model, `inUse, Words()
      ensures Valid() && Repr == old(Repr)
      ensures Drawn(params, objectSize, old(model), model, draws, ptr)
    {
      ghost var h := model;
      ptr := Retry(draws);
      if ptr != 0 {
        ghost var s := DrawnSlot(params, objectSize, h, model, draws, ptr);
        AllocatedOk(params, objectSize, h, s);
        CountInUse(inUse + 1);
      }
    }

    lemma OwnsIsInBounds(i: nat, ptr: nat)
      requires MinisOk() && i < miniHeapsInUse
      ensures Owns(params, objectSize, model, i, ptr) <==> minis[i].InBounds(ptr)
    {
      assert MiniOk(i);
    }

    /** One free attempt on miniheap i, seen from the whole heap. */
    method TryMini(i: nat, ptr: nat) returns (didFree: bool)
      requires MinisOk() && i < miniHeapsInUse && objectSize > 0
      modifies `model, Words()
      ensures MinisOk() && Words() == old(Words())
      ensures !Owns(params, objectSize, old(model), i, ptr) ==> !didFree && model == old(model)
      ensures Owns(params, objectSize, old(model), i, ptr) ==>
                var s := Slot(i, (ptr - old(model).bases[i]) / objectSize);
                && (didFree <==> s in old(model).live)
                && model == old(model).(live := old(model).live - {s})
    {
      assert MiniOk(i);
      OwnsIsInBounds(i, ptr);
      didFree := minis[i].Free(ptr);
      if minis[i].InBounds(ptr) {
        model := model.(live := model.live - {Slot(i, minis[i].ComputeIndex(ptr))});
      }
      forall j | 0 <= j < |minis|
        ensures MiniOk(j)
      {
        assert old(MiniOk(j));
      }
    }

    /** An attempt that succeeds has done the whole free; one that fails has done nothing. */
    method TryFree(i: nat, ptr: nat) returns (didFree: bool)
      requires MinisOk() && i < miniHeapsInUse && HeapOk(params, objectSize, model)
      modifies `model, Words()
      ensures MinisOk() && Words() == old(Words())
      ensures didFree ==> model == Freed(params, objectSize, old(model), ptr)
                          && |Target(params, objectSize, old(model), ptr) * old(model).live| == 1
      ensures !didFree ==> model == old(model) && Missed(params, objectSize, old(model), ptr, i)
    {
      ghost var h := model;
      didFree := TryMini(i, ptr);
      TryIsFree(params, objectSize, h, model, ptr, i, didFree);
    }

    /** Free, up to the counter: the cached miniheap first, then the others. */
    method FreeSlot(ptr: nat) returns (freed: bool)
      requires MinisOk() && HeapOk(params, objectSize, model)
      modifies `model, `cachedMiniHeap, Words()
      ensures MinisOk() && Words() == old(Words())
      ensures model == Freed(params, objectSize, old(model), ptr)
      ensures freed <==> Target(params, objectSize, old(model), ptr) * old(model).live != {}
    {
      var cached := cachedMiniHeap;
      if 0 <= cached < miniHeapsInUse {
        freed := TryFree(cached, ptr);
        if freed {
          return;
        }
      }
      var i := Search(ptr, cached);
      if i >= 0 {
        cachedMiniHeap := i;
      }
      freed := i >= 0;
    }

    method Free(ptr: nat) returns (freed: bool)
      requires Valid()
      modifies this, Words()
      ensures Valid() && Repr == old(Repr)
      ensures model == Freed(params, objectSize, old(model), ptr)
      ensures freed <==> Target(params, objectSize, old(model), ptr) * old(model).live != {}
    {
      ghost var dead := Target(params, objectSize, model, ptr) * model.live;
      FreedOk(params, objectSize, model, ptr);
      freed := FreeSlot(ptr);
      assert HeapOk(params, objectSize, model);
      assert |model.live| == inUse - if dead == {} then 0 else 1;
      CountInUse(if freed then inUse - 1 else inUse);
    }

    /** The counter is no part of what MinisOk speaks of. */
    method CountInUse(n: nat)
      requires MinisOk()
      modifies `inUse
      ensures MinisOk() && inUse == n && Words() == old(Words())
    {
      inUse := n;
    }

    /** The slow path of Free: the miniheaps from the largest down, without the one already tried. */
    method Search(ptr: nat, tried: int) returns (i: int)
      requires MinisOk() && HeapOk(params, objectSize, model)
      requires 0 <= tried < miniHeapsInUse ==> Missed(params, objectSize, model, ptr, tried)
      modifies `model, Words()
      ensures MinisOk() && Words() == old(Words())
      ensures model == Freed(params, objectSize, old(model), ptr)
      ensures i >= 0 <==> Target(params, objectSize, old(model), ptr) * old(model).live != {}
    {
      ghost var h := model;
      i := miniHeapsInUse - 1;
      while i >= 0
        invariant -1 <= i < miniHeapsInUse
        invariant MinisOk() && model == h && Words() == old(Words())
        invariant forall j :: i < j < miniHeapsInUse ==> Missed(params, objectSize, h, ptr, j)
      {
        if i != tried {
          var ok := TryFree(i, ptr);
          if ok {
            return i;
          }
        }
        i := i - 1;
      }
      AllMissed(params, objectSize, h, ptr);
    }

    /** The bytes from ptr to the end of its slot, or zero when no active miniheap holds ptr. */
    method GetSize(ptr: nat) returns (sz: nat)
      requires Valid()
      ensures sz == 0 <==> Target(params, objectSize, model, ptr) == {}
      ensures sz != 0 ==> forall s | s in Target(params, objectSize, model, ptr) ::
                            s.heap < |model.bases| && ptr + sz == Address(objectSize, model, s) + objectSize
    {
      var i: int := miniHeapsInUse - 1;
      while i >= 0
        invariant -1 <= i < miniHeapsInUse
        invariant forall j :: i < j < miniHeapsInUse ==> !Owns(params, objectSize, model, j, ptr)
      {
        assert MiniOk(i);
        OwnsIsInBounds(i, ptr);
        sz := minis[i].GetSize(ptr);
        if sz != 0 {
          TargetUnique(params, objectSize, model, ptr, i);
          return;
        }
        i := i - 1;
      }
      sz := 0;
    }
  }

  /** Miniheap j does not hold ptr, or holds it in a slot that is not in use. */
  predicate Missed(p: Params, size: nat, h: Heap, ptr: nat, j: int)
    requires 0 <= j < |h.bases| && size > 0
  {
    Owns(p, size, h, j, ptr) ==> Slot(j, (ptr - h.bases[j]) / size) !in h.live
  }

  /** One attempt that succeeds has done the whole free; one that fails has done nothing. */
  lemma TryIsFree(p: Params, size: nat, h: Heap, h': Heap, ptr: nat, i: nat, ok: bool)
    requires HeapOk(p, size, h) && i < |h.bases|
    requires !Owns(p, size, h, i, ptr) ==> !ok && h' == h
    requires Owns(p, size, h, i, ptr) ==>
               var s := Slot(i, (ptr - h.bases[i]) / size);
               (ok <==> s in h.live) && h' == h.(live := h.live - {s})
    ensures if ok then h' == Freed(p, size, h, ptr) && |Target(p, size, h, ptr) * h.live| == 1
            else h' == h && Missed(p, size, h, ptr, i)
  {
    if Owns(p, size, h, i, ptr) {
      TargetUnique(p, size, h, ptr, i);
      var s := Slot(i, (ptr - h.bases[i]) / size);
      if ok {
        assert {s} * h.live == {s};
      } else {
        assert h.live - {s} == h.live;
      }
    }
  }

  lemma AllMissed(p: Params, size: nat, h: Heap, ptr: nat)
    requires HeapOk(p, size, h)
    requires forall j :: 0 <= j < |h.bases| ==> Missed(p, size, h, ptr, j)
    ensures Target(p, size, h, ptr) * h.live == {}
    ensures Freed(p, size, h, ptr) == h
  {
    forall s | s in Target(p, size, h, ptr)
      ensures s !in h.live
    {
      assert Missed(p, size, h, ptr, s.heap);
    }
    assert h.live - Target(p, size, h, ptr) == h.live;
  }
}
