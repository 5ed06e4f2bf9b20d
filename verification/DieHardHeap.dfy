/**
 * The array of size-class heaps (DieHardHeap in src/include/diehardheap.h,
 * without DieHarder).  The size-class cache is shown to have no effect on the
 * results: free and getSize are specified without it.
 */
module DieHardHeaps {
  import opened PowersOfTwo
  import opened Log2
  import opened Growth
  import opened Placement
  import opened HeapSpec
  import opened RandomHeaps

  /** No region of one heap overlaps a region of the other. */
  ghost predicate HeapsApart(p: Params, size: nat, h: Heap, p': Params, size': nat, h': Heap) {
    forall i, j :: 0 <= i < |h.bases| && 0 <= j < |h'.bases| ==>
      Apart(h.bases[i], Bytes(p, size, i), h'.bases[j], Bytes(p', size', j))
  }

  /** An address is in at most one of two heaps that are apart. */
  lemma OneHeapHolds(p: Params, size: nat, h: Heap, p': Params, size': nat, h': Heap, ptr: nat)
    requires size > 0 && size' > 0
    requires HeapsApart(p, size, h, p', size', h') || HeapsApart(p', size', h', p, size, h)
    requires Target(p, size, h, ptr) != {}
    ensures Target(p', size', h', ptr) == {}
  {
    var s :| s in Target(p, size, h, ptr);
    forall j: nat | j < |h'.bases|
      ensures !Owns(p', size', h', j, ptr)
    {
      var a, b := h.bases[s.heap], h'.bases[j];
      assert Apart(a, Bytes(p, size, s.heap), b, Bytes(p', size', j))
             || Apart(b, Bytes(p', size', j), a, Bytes(p, size, s.heap));
    }
  }

  lemma SlotInRegion(p: Params, size: nat, h: Heap, s: Slot)
    requires Active(p, h, s)
    ensures h.bases[s.heap] <= Address(size, h, s)
    ensures Address(size, h, s) + size <= h.bases[s.heap] + Bytes(p, size, s.heap)
  {
    MulMonotone(s.index + 1, MiniHeapSize(p, s.heap), size);
    Distribute(s.index, 1, size);
  }

  lemma NothingFreed(p: Params, size: nat, h: Heap, ptr: nat)
    requires size > 0 && Target(p, size, h, ptr) * h.live == {}
    ensures Freed(p, size, h, ptr) == h
  {
    var t := Target(p, size, h, ptr);
    assert forall s :: s in t && s in h.live <==> s in t * h.live;
    assert h.live - t == h.live;
  }

  ghost predicate RegionsDistinct(a: RandomHeap, b: RandomHeap)
    reads a`model, b`model
  {
    HeapsApart(a.params, a.objectSize, a.model, b.params, b.objectSize, b.model)
  }

  /** The slots of a size class that contain ptr. */
  ghost function Hit(a: RandomHeap, ptr: nat): set<Slot>
    requires a.objectSize > 0
    reads a`model
  {
    Target(a.params, a.objectSize, a.model, ptr)
  }

  /** Some live object of a size class contains ptr. */
  ghost predicate Holds(a: RandomHeap, ptr: nat)
    requires a.objectSize > 0
    reads a`model
  {
    Hit(a, ptr) * a.model.live != {}
  }

  ghost predicate FreedIn(a: RandomHeap, before: Heap, ptr: nat)
    requires a.objectSize > 0
    reads a`model
  {
    a.model == Freed(a.params, a.objectSize, before, ptr)
  }

  /** The next region of heap a, which was h, would not overlap any region of heap b, which was h'. */
  ghost predicate RegionMisses(a: RandomHeap, h: Heap, region: nat, b: RandomHeap, h': Heap) {
    forall j :: 0 <= j < |h'.bases| ==>
      Apart(region, Bytes(a.params, a.objectSize, |h.bases|), h'.bases[j], Bytes(b.params, b.objectSize, j))
  }

  /** Heap a grew from before by at most the given region, which misses heap b. */
  lemma StillApart(a: RandomHeap, before: Heap, b: RandomHeap, region: nat)
    requires HeapsApart(a.params, a.objectSize, before, b.params, b.objectSize, b.model)
    requires a.model.bases == before.bases
             || (a.model.bases == before.bases + [region]
                 && forall j :: 0 <= j < |b.model.bases| ==>
                      Apart(region, Bytes(a.params, a.objectSize, |before.bases|),
                            b.model.bases[j], Bytes(b.params, b.objectSize, j)))
    ensures RegionsDistinct(a, b) && RegionsDistinct(b, a)
  {
    forall i, j | 0 <= i < |a.model.bases| && 0 <= j < |b.model.bases|
      ensures Apart(a.model.bases[i], Bytes(a.params, a.objectSize, i),
                    b.model.bases[j], Bytes(b.params, b.objectSize, j))
    {
      if i < |before.bases| {
        assert Apart(before.bases[i], Bytes(a.params, a.objectSize, i),
                     b.model.bases[j], Bytes(b.params, b.objectSize, j));
      }
    }
  }

  /** What malloc did to one size class: the first draw that does not collide decides the slot. */
  ghost predicate ServedFrom(before: Heap, a: RandomHeap, draws: seq<Draw>, region: nat, ptr: nat)
    requires a.params.minObjects > 0
    reads a`model
  {
    Served(a.params, a.objectSize, before, a.model, draws, region, ptr)
  }

  function Max(a: nat, b: nat): nat {
    if a < b then b else a
  }

  /** The static parameters of the heap for size class c. */
  function ClassParams(num: nat, den: nat, c: nat, grain: nat, maxHeaps: nat): Params
    requires den > 0
  {
    MulPositive(Pow2(c), ALIGNMENT);
    Params(num, den, MinObjects(num, den, ClassSize(c), grain), maxHeaps)
  }

  /** One heap for each size class, sharing nothing. */
  method MakeHeaps(num: nat, den: nat, classes: nat, grain: nat, maxHeaps: nat) returns (made: seq<RandomHeap>)
    requires 0 < den <= num
    ensures |made| == classes
    ensures forall c :: 0 <= c < |made| ==>
              && made[c].Valid() && made[c].objectSize == ClassSize(c)
              && made[c].params == ClassParams(num, den, c, grain, maxHeaps)
              && made[c].model == EMPTY && fresh(made[c].Repr)
    ensures forall c, d :: 0 <= c < |made| && 0 <= d < |made| && c != d ==> made[c].Repr !! made[d].Repr
  {
    made := [];
    while |made| < classes
      invariant |made| <= classes
      invariant forall c :: 0 <= c < |made| ==>
                  && made[c].Valid() && made[c].objectSize == ClassSize(c)
                  && made[c].params == ClassParams(num, den, c, grain, maxHeaps)
                  && made[c].model == EMPTY && fresh(made[c].Repr)
      invariant forall c, d :: 0 <= c < |made| && 0 <= d < |made| && c != d ==> made[c].Repr !! made[d].Repr
    {
      var size := ClassSize(|made|);
      MulPositive(Pow2(|made|), ALIGNMENT);
      MinObjectsFit(num, den, size, grain, maxHeaps);
      var h := new RandomHeap(ClassParams(num, den, |made|, grain, maxHeaps), size);
      made := made + [h];
    }
  }

  class DieHardHeap {
    const heaps: seq<RandomHeap>
    var cachedSizeClass: int

    /** Every object the size classes are made of. */
    ghost function Objects(): set<object>
      reads heaps
    {
      set c, o | 0 <= c < |heaps| && o in heaps[c].Repr :: o
    }

    ghost predicate Sized() {
      forall c :: 0 <= c < |heaps| ==> heaps[c].objectSize > 0
    }

    ghost predicate Valid()
      reads heaps, Objects()
      ensures Valid() ==> Sized()
    {
      && |heaps| > 0 && this !in Objects()
      && (forall c :: 0 <= c < |heaps| ==> heaps[c].Valid() && heaps[c].objectSize == ClassSize(c))
      && ReprsApart() && AllDistinct()
    }

    ghost predicate ReprsApart()
      reads heaps
    {
      forall c, d :: 0 <= c < |heaps| && 0 <= d < |heaps| && c != d ==> heaps[c].Repr !! heaps[d].Repr
    }

    ghost predicate AllDistinct()
      reads heaps`model
    {
      forall c, d :: 0 <= c < |heaps| && 0 <= d < |heaps| && c != d ==> RegionsDistinct(heaps[c], heaps[d])
    }

    /** The model of every class. */
    ghost function Models(): (r: seq<Heap>)
      reads heaps
    {
      seq(|heaps|, c requires 0 <= c < |heaps| reads heaps => heaps[c].model)
    }

    /** Only class c changed, by at most a region that misses the others. */
    lemma StillDistinct(c: nat, before: seq<Heap>, region: nat)
      requires c < |heaps| == |before|
      requires forall d, e :: 0 <= d < |heaps| && 0 <= e < |heaps| && d != e ==> WereApart(before, d, e)
      requires forall d :: 0 <= d < |heaps| && d != c ==> heaps[d].model == before[d]
      requires heaps[c].model.bases == before[c].bases
               || (heaps[c].model.bases == before[c].bases + [region]
                   && forall d :: 0 <= d < |heaps| && d != c ==>
                        RegionMisses(heaps[c], before[c], region, heaps[d], before[d]))
      ensures AllDistinct()
    {
      forall d, e | 0 <= d < |heaps| && 0 <= e < |heaps| && d != e
        ensures RegionsDistinct(heaps[d], heaps[e])
      {
        assert WereApart(before, d, e) && WereApart(before, e, d);
        if d == c {
          assert heaps[c].model.bases != before[c].bases ==>
              RegionMisses(heaps[c], before[c], region, heaps[e], before[e]);
          StillApart(heaps[c], before[c], heaps[e], region);
        } else if e == c {
          assert heaps[c].model.bases != before[c].bases ==>
              RegionMisses(heaps[c], before[c], region, heaps[d], before[d]);
          StillApart(heaps[c], before[c], heaps[d], region);
        }
      }
    }

    ghost predicate WereApart(before: seq<Heap>, d: nat, e: nat)
      requires d < |heaps| == |before| && e < |heaps|
    {
      HeapsApart(heaps[d].params, heaps[d].objectSize, before[d], heaps[e].params, heaps[e].objectSize, before[e])
    }

    constructor (num: nat, den: nat, classes: nat, grain: nat, maxHeaps: nat)
      requires 0 < den <= num && classes > 0
      ensures Valid() && |heaps| == classes && fresh(Objects())
      ensures forall c :: 0 <= c < |heaps| ==>
                heaps[c].model == EMPTY && heaps[c].params == ClassParams(num, den, c, grain, maxHeaps)
    {
      var made := MakeHeaps(num, den, classes, grain, maxHeaps);
      heaps := made;
      cachedSizeClass := -1;
    }

    /** free on one size class: the other classes do not notice. */
    method TryClass(c: nat, ptr: nat) returns (freed: bool)
      requires Valid() && c < |heaps|
      modifies heaps[c].Repr
      ensures Valid() && Objects() == old(Objects())
      ensures heaps[c].model == Freed(heaps[c].params, heaps[c].objectSize, old(heaps[c].model), ptr)
      ensures freed <==> old(Holds(heaps[c], ptr))
      ensures forall d :: 0 <= d < |heaps| && d != c ==> heaps[d].model == old(heaps[d].model)
    {
      ghost var before := Models();
      assert forall d, e :: 0 <= d < |heaps| && 0 <= e < |heaps| && d != e ==>
        (RegionsDistinct(heaps[d], heaps[e]) <==> WereApart(before, d, e));
      freed := heaps[c].Free(ptr);
      assert forall d :: 0 <= d < |heaps| ==> heaps[d].Repr == old(heaps[d].Repr) && heaps[d].Valid();
      assert Objects() == old(Objects());
      StillDistinct(c, before, 0);
    }

    /** The cached size class first, then the others in order. */
    method Free(ptr: nat) returns (freed: bool)
      requires Valid()
      modifies `cachedSizeClass, Objects()
      ensures Valid() && Objects() == old(Objects())
      ensures forall c :: 0 <= c < |heaps| ==> FreedIn(heaps[c], old(heaps[c].model), ptr)
      ensures freed <==> exists c :: 0 <= c < |heaps| && old(Holds(heaps[c], ptr))
    {
      var cached := cachedSizeClass;
      if 0 <= cached < |heaps| {
        freed := TryFree(cached, ptr);
        if freed {
          return;
        }
      }
      var i := Search(ptr, cached);
      if i >= 0 {
        Remember(i);
      }
      freed := i >= 0;
    }

    /** The cache is no part of what Valid speaks of. */
    method Remember(c: int)
      requires Valid()
      modifies `cachedSizeClass
      ensures Valid() && cachedSizeClass == c && Objects() == old(Objects())
      ensures forall d :: 0 <= d < |heaps| ==> heaps[d].model == old(heaps[d].model)
    {
      cachedSizeClass := c;
    }

    /** The slow path of Free: every class but the one already tried; negative when none held ptr. */
    method Search(ptr: nat, tried: int) returns (i: int)
      requires Valid() && (0 <= tried < |heaps| ==> !Holds(heaps[tried], ptr))
      modifies Objects()
      ensures Valid() && Objects() == old(Objects())
      ensures forall c :: 0 <= c < |heaps| ==> FreedIn(heaps[c], old(heaps[c].model), ptr)
      ensures i >= 0 <==> exists c :: 0 <= c < |heaps| && old(Holds(heaps[c], ptr))
    {
      i := 0;
      while i < |heaps|
        invariant 0 <= i <= |heaps| && Valid() && Objects() == old(Objects())
        invariant forall c :: 0 <= c < |heaps| ==> heaps[c].model == old(heaps[c].model)
        invariant forall c :: 0 <= c < i ==> !Holds(heaps[c], ptr)
      {
        if i != tried {
          var freed := TryFree(i, ptr);
          if freed {
            return;
          }
        }
        i := i + 1;
      }
      i := -1;
      forall c | 0 <= c < |heaps|
        ensures FreedIn(heaps[c], old(heaps[c].model), ptr)
      {
        NothingFreed(heaps[c].params, heaps[c].objectSize, heaps[c].model, ptr);
      }
    }

    /** An attempt that succeeds has done the whole free; one that fails has done nothing. */
    method TryFree(c: nat, ptr: nat) returns (freed: bool)
      requires Valid() && c < |heaps|
      modifies heaps[c].Repr
      ensures Valid() && Objects() == old(Objects())
      ensures freed <==> old(Holds(heaps[c], ptr))
      ensures freed ==> forall d :: 0 <= d < |heaps| ==> FreedIn(heaps[d], old(heaps[d].model), ptr)
      ensures !freed ==> forall d :: 0 <= d < |heaps| ==> heaps[d].model == old(heaps[d].model)
    {
      if Holds(heaps[c], ptr) {
        forall d | 0 <= d < |heaps| && d != c
          ensures Freed(heaps[d].params, heaps[d].objectSize, heaps[d].model, ptr) == heaps[d].model
        {
          HoldsAlone(c, d, ptr);
          NothingFreed(heaps[d].params, heaps[d].objectSize, heaps[d].model, ptr);
        }
      } else {
        NothingFreed(heaps[c].params, heaps[c].objectSize, heaps[c].model, ptr);
      }
      freed := TryClass(c, ptr);
    }

    lemma HoldsAlone(c: nat, d: nat, ptr: nat)
      requires Valid() && c < |heaps| && d < |heaps| && d != c && Hit(heaps[c], ptr) != {}
      ensures Hit(heaps[d], ptr) == {}
    {
      assert RegionsDistinct(heaps[c], heaps[d]);
      OneHeapHolds(heaps[c].params, heaps[c].objectSize, heaps[c].model,
                   heaps[d].params, heaps[d].objectSize, heaps[d].model, ptr);
    }

    /** Live objects of different size classes never overlap. */
    lemma ClassesApart(c: nat, s: Slot, d: nat, t: Slot)
      requires Valid() && c < |heaps| && d < |heaps| && c != d
      requires s in heaps[c].model.live && t in heaps[d].model.live
      ensures s.heap < |heaps[c].model.bases| && t.heap < |heaps[d].model.bases|
      ensures Apart(Address(ClassSize(c), heaps[c].model, s), ClassSize(c),
                    Address(ClassSize(d), heaps[d].model, t), ClassSize(d))
    {
      SlotInRegion(heaps[c].params, ClassSize(c), heaps[c].model, s);
      SlotInRegion(heaps[d].params, ClassSize(d), heaps[d].model, t);
      assert RegionsDistinct(heaps[c], heaps[d]);
      var a, b := heaps[c].model.bases[s.heap], heaps[d].model.bases[t.heap];
      assert Apart(a, Bytes(heaps[c].params, ClassSize(c), s.heap), b, Bytes(heaps[d].params, ClassSize(d), t.heap));
    }

    /** What is left of the slot that contains ptr, whatever class holds it; zero when none does. */
    method GetSize(ptr: nat) returns (sz: nat)
      requires Valid()
      modifies `cachedSizeClass
      ensures Valid()
      ensures Remaining(ptr, sz)
    {
      var i;
      i, sz := SizeOf(ptr, cachedSizeClass);
      if sz != 0 {
        Remember(i);
      }
    }

    /** The class that was asked last, and what it said. */
    method SizeOf(ptr: nat, cached: int) returns (i: int, sz: nat)
      requires Valid()
      ensures Remaining(ptr, sz)
    {
      if 0 <= cached < |heaps| {
        sz := SizeInClass(cached, ptr);
        if sz != 0 {
          return cached, sz;
        }
      }
      i, sz := SearchSize(ptr, cached);
    }

    /** The slow path of GetSize. */
    method SearchSize(ptr: nat, tried: int) returns (i: int, sz: nat)
      requires Valid() && (0 <= tried < |heaps| ==> Hit(heaps[tried], ptr) == {})
      ensures Remaining(ptr, sz)
    {
      i := 0;
      while i < |heaps|
        invariant 0 <= i <= |heaps|
        invariant forall c :: 0 <= c < i ==> Hit(heaps[c], ptr) == {}
      {
        if i != tried {
          sz := SizeInClass(i, ptr);
          if sz != 0 {
            return;
          }
        }
        i := i + 1;
      }
      sz := 0;
    }

    /** sz is zero when no class holds ptr, and otherwise reaches the end of the slot that contains it. */
    ghost predicate Remaining(ptr: nat, sz: nat)
      requires Sized()
      reads heaps`model
    {
      && (sz == 0 <==> forall c :: 0 <= c < |heaps| ==> Hit(heaps[c], ptr) == {})
      && forall c, s | sz != 0 && 0 <= c < |heaps| && s in Hit(heaps[c], ptr) ::
           && s.heap < |heaps[c].model.bases|
           && ptr + sz == Address(ClassSize(c), heaps[c].model, s) + ClassSize(c)
    }

    method SizeInClass(c: nat, ptr: nat) returns (sz: nat)
      requires Valid() && c < |heaps|
      ensures sz == 0 <==> Hit(heaps[c], ptr) == {}
      ensures sz != 0 ==> Remaining(ptr, sz)
    {
      sz := heaps[c].GetSize(ptr);
      if sz != 0 {
        forall d | 0 <= d < |heaps| && d != c
          ensures Hit(heaps[d], ptr) == {}
        {
          HoldsAlone(c, d, ptr);
        }
      }
    }

    /** The size class that serves a request: requests below the alignment are rounded up to it. */
    function ServedBy(sz: nat): (c: int)
      ensures c >= 0 && Max(sz, ALIGNMENT) <= ClassSize(c) < 2 * Max(sz, ALIGNMENT)
      ensures |heaps| > 0 && sz <= MaxSize() ==> c < |heaps|
    {
      MulMonotone(1, Pow2(if |heaps| > 0 then |heaps| - 1 else 0), ALIGNMENT);
      ClassFits(Max(sz, ALIGNMENT));
      ClassIndex(Max(sz, ALIGNMENT))
    }

    /** The region the allocator may hand out is apart from what every class has. */
    ghost predicate RegionFits(c: nat, region: nat)
      requires c < |heaps|
      reads heaps
    {
      && FreshRegion(heaps[c].params, heaps[c].objectSize, heaps[c].model, region)
      && forall d :: 0 <= d < |heaps| && d != c ==>
           RegionMisses(heaps[c], heaps[c].model, region, heaps[d], heaps[d].model)
    }

    /** Class c is the smallest whose objects hold sz bytes. */
    predicate Fits(c: nat, sz: nat) {
      c < |heaps| && sz <= ClassSize(c) && forall b | 0 <= b < c :: ClassSize(b) < sz
    }

    /** ServedBy names the smallest class that fits, and MaxSize is the largest request that any class holds. */
    lemma ServedByFits(sz: nat)
      ensures forall c | 0 <= c < |heaps| && sz <= ClassSize(c) :: sz <= MaxSize()
      ensures |heaps| > 0 && sz <= MaxSize() ==> forall c :: Fits(c, sz) <==> c == ServedBy(sz)
    {
      ClassFits(Max(sz, ALIGNMENT));
      MulMonotone(1, Pow2(if |heaps| > 0 then |heaps| - 1 else 0), ALIGNMENT);
      forall c: nat
        ensures Max(sz, ALIGNMENT) <= ClassSize(c) <==> sz <= ClassSize(c)
      {
        MulMonotone(1, Pow2(c), ALIGNMENT);
      }
    }

    /**
     * malloc: a request that no class holds gets null and nothing changes; any
     * other is served by the smallest class that holds it, and no other class
     * changes.
     */
    method Malloc(sz: nat, draws: seq<Draw>, region: nat) returns (ptr: nat)
      requires Valid()
      requires forall c: nat | Fits(c, sz) ::
                 MustGrow(heaps[c].params, heaps[c].model) ==>
                   |heaps[c].model.bases| < heaps[c].params.maxHeaps && RegionFits(c, region)
      modifies Objects()
      ensures Valid() && old(Objects()) <= Objects() && fresh(Objects() - old(Objects()))
      ensures ptr % ALIGNMENT == 0
      ensures (forall c | 0 <= c < |heaps| :: ClassSize(c) < sz) ==>
                ptr == 0 && forall c :: 0 <= c < |heaps| ==> heaps[c].model == old(heaps[c].model)
      ensures forall c | 0 <= c < |heaps| && sz <= ClassSize(c) && (forall b | 0 <= b < c :: ClassSize(b) < sz) ::
                && ServedFrom(old(heaps[c].model), heaps[c], draws, region, ptr)
                && forall d :: 0 <= d < |heaps| && d != c ==> heaps[d].model == old(heaps[d].model)
    {
      ServedByFits(sz);
      if sz > MaxSize() {
        return 0;
      }
      var c := ServedBy(sz);
      assert Fits(c, sz);
      ghost var before := heaps[c].model;
      ptr := MallocFrom(c, draws, region);
      ServedAligned(before, c, draws, region, ptr);
      assert forall d :: Fits(d, sz) ==> d == c;
    }

    /** What a size class hands out is aligned, as its regions and its size are. */
    lemma ServedAligned(before: Heap, c: nat, draws: seq<Draw>, region: nat, ptr: nat)
      requires Valid() && c < |heaps| && ServedFrom(before, heaps[c], draws, region, ptr)
      ensures ptr % ALIGNMENT == 0
    {
      var a := heaps[c];
      DivModUnique(ClassSize(c), ALIGNMENT, Pow2(c), 0);
      if ptr != 0 {
        var s := ServedSlot(a.params, a.objectSize, before, a.model, draws, region, ptr);
        SlotsAligned(a.params, a.objectSize, a.model, s);
      }
    }

    /** malloc on one size class: the other classes do not notice. */
    method MallocFrom(c: nat, draws: seq<Draw>, region: nat) returns (ptr: nat)
      requires Valid() && c < |heaps|
      requires MustGrow(heaps[c].params, heaps[c].model) ==>
                 |heaps[c].model.bases| < heaps[c].params.maxHeaps && RegionFits(c, region)
      modifies heaps[c].Repr
      ensures Valid() && old(Objects()) <= Objects() && fresh(Objects() - old(Objects()))
      ensures ServedFrom(old(heaps[c].model), heaps[c], draws, region, ptr)
      ensures forall d :: 0 <= d < |heaps| && d != c ==> heaps[d].model == old(heaps[d].model)
    {
      ghost var before := Models();
      assert forall d, e :: 0 <= d < |heaps| && 0 <= e < |heaps| && d != e ==>
        (RegionsDistinct(heaps[d], heaps[e]) <==> WereApart(before, d, e));
      ptr := Allocate(c, draws, region);
      StillDistinct(c, before, region);
    }

    /** The call of malloc on the heap of class c, and what it leaves alone. */
    method Allocate(c: nat, draws: seq<Draw>, region: nat) returns (ptr: nat)
      requires Valid() && c < |heaps|
      requires MustGrow(heaps[c].params, heaps[c].model) ==>
                 |heaps[c].model.bases| < heaps[c].params.maxHeaps && RegionFits(c, region)
      modifies heaps[c].Repr
      ensures forall d :: 0 <= d < |heaps| ==> heaps[d].Valid()
      ensures forall d :: 0 <= d < |heaps| && d != c ==> heaps[d].model == old(heaps[d].model)
      ensures ReprsApart() && old(Objects()) <= Objects() && fresh(Objects() - old(Objects()))
      ensures ServedFrom(old(heaps[c].model), heaps[c], draws, region, ptr)
    {
      ptr := heaps[c].Malloc(draws, region);
      assert forall d :: 0 <= d < |heaps| && d != c ==> heaps[d].Repr == old(heaps[d].Repr) && heaps[d].Valid();
    }

    /** The largest size this heap serves: (1 << (MAX_INDEX - 1)) * Alignment. */
    function MaxSize(): nat
    {
      if |heaps| == 0 then 0 else ClassSize(|heaps| - 1)
    }
  }
}
