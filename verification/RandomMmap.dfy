/**
 * Random placement of page runs (src/include/randommmap.h): map sets the bits
 * of a run of free pages or leaves the bitmap as it was and draws again, and
 * unmap clears them.
 */
module RandomMmaps {
  import opened PowersOfTwo
  import opened BitMaps

  // ---------------------------------------------------------------------
  // What the bitmap means
  // ---------------------------------------------------------------------

  /** The pages in use, and the runs (first page to number of pages) they were handed out in. */
  datatype Model = Model(used: set<nat>, runs: map<nat, nat>)

  const UNUSED := Model({}, map[])

  function Run(index: nat, npages: nat): (r: set<nat>)
    ensures forall p: nat :: p in r <==> index <= p < index + npages
  {
    if npages == 0 then {} else Run(index, npages - 1) + {index + npages - 1}
  }

  function PagesFor(sz: nat, pageSize: nat): nat
    requires pageSize > 0
  {
    (sz + pageSize - 1) / pageSize
  }

  /** The first page a draw selects: the run then ends inside the region. */
  function Probe(draw: nat, pages: nat, npages: nat): (index: nat)
    requires npages <= pages
    ensures index + npages <= pages
  {
    draw % (pages - npages + 1)
  }

  /** unsigned long has this many values. */
  const WORD: nat := 0x1_0000_0000_0000_0000

  /** What map asserts of a draw, with the subtraction wrapping as it does there: the last page is inside the region. */
  predicate LastPageInside(draw: nat, pages: nat, npages: nat)
    requires npages <= pages
  {
    (Probe(draw, pages, npages) + npages - 1) % WORD < pages
  }

  /** PagesFor is the least number of pages that hold sz bytes. */
  lemma PagesForIsLeast(sz: nat, pageSize: nat, n: nat)
    requires pageSize > 0
    ensures PagesFor(sz, pageSize) <= n <==> sz <= n * pageSize
  {
    var q, m := PagesFor(sz, pageSize), sz + pageSize - 1;
    assert m == q * pageSize + m % pageSize;
    if q <= n {
      MulMonotone(q, n, pageSize);
    } else {
      MulMonotone(n + 1, q, pageSize);
      assert (n + 1) * pageSize == n * pageSize + pageSize;
    }
  }

  lemma PagesForNothing(sz: nat, pageSize: nat)
    requires pageSize > 0
    ensures PagesFor(sz, pageSize) > 0 <==> sz > 0
  {
    if sz > 0 {
      var n := sz + pageSize - 1;
      assert n == (n / pageSize) * pageSize + n % pageSize;
    }
  }

  /** The assertion holds of a draw exactly when some byte is asked for or the draw does not select page 0. */
  lemma AssertionHoldsIff(draw: nat, pages: nat, sz: nat, pageSize: nat)
    requires pageSize > 0 && PagesFor(sz, pageSize) <= pages < WORD
    ensures LastPageInside(draw, pages, PagesFor(sz, pageSize))
            <==> sz > 0 || Probe(draw, pages, PagesFor(sz, pageSize)) > 0
  {
    PagesForNothing(sz, pageSize);
    var npages := PagesFor(sz, pageSize);
    var last := Probe(draw, pages, npages) + npages - 1;
    if last >= 0 { DivModUnique(last, WORD, 0, last); }
  }

  /** Asking for no bytes with a draw of 0 makes it fail, whatever the sizes: what it computes is the largest number. */
  lemma AssertionFails(pages: nat, pageSize: nat)
    requires 0 < pageSize && pages < WORD
    ensures PagesFor(0, pageSize) == 0 && Probe(0, pages, 0) == 0 && !LastPageInside(0, pages, 0)
    ensures (Probe(0, pages, 0) + 0 - 1) % WORD == WORD - 1
  {
    PagesForNothing(0, pageSize);
  }

  /** Every run that ends inside the region is selected by the draw of its own number, and no other run by any draw. */
  lemma EveryRunIsSelected(pages: nat, npages: nat, index: nat)
    requires npages <= pages
    ensures (exists draw: nat :: Probe(draw, pages, npages) == index) <==> index + npages <= pages
    ensures index + npages <= pages ==> Probe(index, pages, npages) == index
  {
    if index + npages <= pages {
      DivModUnique(index, pages - npages + 1, 0, index);
      assert Probe(index, pages, npages) == index;
    }
  }

  /** The pages that draw k selects are all free. */
  predicate Hits(draws: seq<nat>, k: nat, pages: nat, npages: nat, used: set<nat>)
    requires npages <= pages && k < |draws|
  {
    Run(Probe(draws[k], pages, npages), npages) !! used
  }

  datatype Event = Map(index: nat, npages: nat) | Unmap(index: nat)

  /** map hands out a free run of at least one page; unmap is for a run handed out and not yet returned. */
  predicate Allowed(pages: nat, m: Model, e: Event) {
    match e
    case Map(index, npages) => 0 < npages && index + npages <= pages && Run(index, npages) !! m.used
    case Unmap(index) => index in m.runs
  }

  function Apply(m: Model, e: Event): Model
    requires e.Unmap? ==> e.index in m.runs
  {
    match e
    case Map(index, npages) => Model(m.used + Run(index, npages), m.runs[index := npages])
    case Unmap(index) => Model(m.used - Run(index, m.runs[index]), m.runs - {index})
  }

  /** What a successful map leaves; no page is no run. */
  function HandedOut(m: Model, index: nat, npages: nat): Model {
    if npages == 0 then m else Apply(m, Map(index, npages))
  }

  /** Page p is in the run that begins at page i. */
  predicate Holds(m: Model, i: nat, p: nat) {
    i in m.runs && i <= p < i + m.runs[i]
  }

  /** The runs are inside the region, have no page in common, and together are the pages in use. */
  ghost predicate Partition(pages: nat, m: Model) {
    && (forall i | i in m.runs :: 0 < m.runs[i] && i + m.runs[i] <= pages)
    && (forall i, p | Holds(m, i, p) :: p in m.used)
    && (forall i, j, p | Holds(m, i, p) && Holds(m, j, p) :: i == j)
    && (forall p | p in m.used :: exists i :: Holds(m, i, p))
  }

  lemma MapKeeps(pages: nat, m: Model, index: nat, npages: nat)
    requires Partition(pages, m) && Allowed(pages, m, Map(index, npages))
    ensures Partition(pages, Apply(m, Map(index, npages))) && index !in m.runs
  {
    var m' := Apply(m, Map(index, npages));
    assert index in Run(index, npages);
    assert index in m.runs ==> Holds(m, index, index);
    forall i: nat, p: nat
      ensures Holds(m', i, p) <==> Holds(m, i, p) || (i == index && p in Run(index, npages))
    {
    }
    forall p | p in m'.used
      ensures exists i :: Holds(m', i, p)
    {
      if p in m.used {
        var i :| Holds(m, i, p);
        assert Holds(m', i, p);
      } else {
        assert Holds(m', index, p);
      }
    }
  }

  lemma UnmapKeeps(pages: nat, m: Model, index: nat)
    requires Partition(pages, m) && Allowed(pages, m, Unmap(index))
    ensures Partition(pages, Apply(m, Unmap(index)))
  {
    var m' := Apply(m, Unmap(index));
    forall i: nat, p: nat
      ensures Holds(m', i, p) <==> Holds(m, i, p) && i != index
    {
    }
    forall i: nat, p: nat | Holds(m', i, p)
      ensures p in m'.used
    {
      assert Holds(m, i, p);
      assert p in Run(index, m.runs[index]) ==> Holds(m, index, p);
    }
    forall p | p in m'.used
      ensures exists i :: Holds(m', i, p)
    {
      var i :| Holds(m, i, p);
      assert Holds(m', i, p);
    }
  }

  lemma ApplyKeeps(pages: nat, m: Model, e: Event)
    requires Partition(pages, m) && Allowed(pages, m, e)
    ensures Partition(pages, Apply(m, e))
  {
    match e
    case Map(index, npages) => MapKeeps(pages, m, index, npages);
    case Unmap(index) => UnmapKeeps(pages, m, index);
  }

  lemma HandedOutKeeps(pages: nat, m: Model, index: nat, npages: nat)
    requires index + npages <= pages && Run(index, npages) !! m.used
    ensures HandedOut(m, index, npages).used == m.used + Run(index, npages)
    ensures Partition(pages, m) ==> Partition(pages, HandedOut(m, index, npages))
  {
    if npages > 0 && Partition(pages, m) { MapKeeps(pages, m, index, npages); }
  }

  /** The state after a sequence of events; an unmap of a run that is not live would be ignored. */
  function Replay(m: Model, events: seq<Event>): Model {
    if events == [] then m
    else
      var before, e := Replay(m, events[..|events| - 1]), events[|events| - 1];
      if e.Unmap? && e.index !in before.runs then before else Apply(before, e)
  }

  ghost predicate IsRun(pages: nat, m: Model, events: seq<Event>) {
    events == [] ||
    var before := events[..|events| - 1];
    IsRun(pages, m, before) && Allowed(pages, Replay(m, before), events[|events| - 1])
  }

  /** Over any run of maps and unmaps, live runs have no page in common and their pages are exactly those in use. */
  lemma {:induction false} LiveRunsPartition(pages: nat, m: Model, events: seq<Event>)
    requires Partition(pages, m) && IsRun(pages, m, events)
    ensures Partition(pages, Replay(m, events))
  {
    if events != [] {
      var before := events[..|events| - 1];
      LiveRunsPartition(pages, m, before);
      ApplyKeeps(pages, Replay(m, before), events[|events| - 1]);
    }
  }

  /** An event that does not concern a run just mapped could have come before it. */
  lemma Commute(pages: nat, m: Model, index: nat, npages: nat, e: Event)
    requires Partition(pages, m) && Allowed(pages, m, Map(index, npages))
    requires Allowed(pages, Apply(m, Map(index, npages)), e) && e != Unmap(index)
    ensures Allowed(pages, m, e) && Allowed(pages, Apply(m, e), Map(index, npages))
    ensures Apply(Apply(m, Map(index, npages)), e) == Apply(Apply(m, e), Map(index, npages))
  {
    match e
    case Map(i, n) => CommuteMaps(pages, m, index, npages, i, n);
    case Unmap(i) => CommuteUnmap(pages, m, index, npages, i);
  }

  lemma CommuteMaps(pages: nat, m: Model, i: nat, n: nat, j: nat, k: nat)
    requires Partition(pages, m) && Allowed(pages, m, Map(i, n)) && Allowed(pages, Apply(m, Map(i, n)), Map(j, k))
    ensures Allowed(pages, m, Map(j, k)) && Allowed(pages, Apply(m, Map(j, k)), Map(i, n))
    ensures Apply(Apply(m, Map(i, n)), Map(j, k)) == Apply(Apply(m, Map(j, k)), Map(i, n))
  {
    assert i in Run(i, n) && j in Run(j, k);
    assert m.used + Run(i, n) + Run(j, k) == m.used + Run(j, k) + Run(i, n);
    assert m.runs[i := n][j := k] == m.runs[j := k][i := n];
  }

  lemma CommuteUnmap(pages: nat, m: Model, i: nat, n: nat, j: nat)
    requires Partition(pages, m) && Allowed(pages, m, Map(i, n)) && j in m.runs
    ensures j != i && Allowed(pages, Apply(m, Unmap(j)), Map(i, n))
    ensures Apply(Apply(m, Map(i, n)), Unmap(j)) == Apply(Apply(m, Unmap(j)), Map(i, n))
  {
    MapKeeps(pages, m, i, n);
    var theirs := Run(j, m.runs[j]);
    assert forall p | p in theirs :: Holds(m, j, p);
    assert (m.used + Run(i, n)) - theirs == (m.used - theirs) + Run(i, n);
    assert m.runs[i := n] - {j} == (m.runs - {j})[i := n];
  }

  lemma UnmapUndoesMap(pages: nat, m: Model, index: nat, npages: nat)
    requires Partition(pages, m) && Allowed(pages, m, Map(index, npages))
    ensures Apply(Apply(m, Map(index, npages)), Unmap(index)) == m
  {
    MapKeeps(pages, m, index, npages);
    assert m.runs[index := npages] - {index} == m.runs;
    assert m.used + Run(index, npages) - Run(index, npages) == m.used;
  }

  /**
   * Mapping a run, letting any maps and unmaps of other runs happen, and
   * unmapping it leaves the state those others alone would have left.
   */
  lemma {:induction false} UnmapUndoesMapAround(pages: nat, m: Model, index: nat, npages: nat, others: seq<Event>)
    requires Partition(pages, m) && Allowed(pages, m, Map(index, npages))
    requires IsRun(pages, Apply(m, Map(index, npages)), others) && Unmap(index) !in others
    ensures IsRun(pages, m, others) && Allowed(pages, Replay(m, others), Map(index, npages))
    ensures Replay(Apply(m, Map(index, npages)), others) == Apply(Replay(m, others), Map(index, npages))
    ensures Apply(Apply(Replay(m, others), Map(index, npages)), Unmap(index)) == Replay(m, others)
  {
    if others != [] {
      var before, e := others[..|others| - 1], others[|others| - 1];
      UnmapUndoesMapAround(pages, m, index, npages, before);
      LiveRunsPartition(pages, m, before);
      Commute(pages, Replay(m, before), index, npages, e);
    }
    LiveRunsPartition(pages, m, others);
    UnmapUndoesMap(pages, Replay(m, others), index, npages);
  }

  // ---------------------------------------------------------------------
  // The code
  // ---------------------------------------------------------------------

  class RandomMmap {
    const pageSize: nat
    const pages: nat
    const base: nat
    const bitmap: BitMap

    ghost var model: Model

    ghost predicate Valid()
      reads this, bitmap, bitmap.words
    {
      && pageSize > 0 && pages <= bitmap.Elements()
      && base % pageSize == 0
      && bitmap.Contents() == model.used
    }

    /** Only runs that were handed out have been given back. */
    ghost predicate Exact()
      reads this, bitmap, bitmap.words
    {
      Valid() && Partition(pages, model)
    }

    /** base is the page-aligned region the operating system reserved. */
    constructor (pageSize: nat, pages: nat, base: nat)
      requires pageSize > 0 && base % pageSize == 0
      ensures Exact() && model == UNUSED
      ensures this.pageSize == pageSize && this.pages == pages && this.base == base
      ensures fresh(bitmap) && fresh(bitmap.words)
    {
      this.pageSize := pageSize;
      this.pages := pages;
      this.base := base;
      bitmap := new BitMap();
      model := UNUSED;
      new;
      bitmap.Reserve(pages);
    }

    /**
     * The address of a run of free pages that holds sz bytes, or null when
     * every draw hit a page in use, where the source would go on drawing.  For
     * no bytes at all no page is taken.  When the source's assertion on a draw
     * holds is AssertionHoldsIff.
     */
    method Map(draws: seq<nat>, sz: nat) returns (ptr: nat)
      requires Valid() && PagesFor(sz, pageSize) <= pages && base > 0
      modifies `model, bitmap.words
      ensures Valid() && (old(Exact()) ==> Exact())
      ensures ptr == 0 <==> forall k :: 0 <= k < |draws| ==>
                                !Hits(draws, k, pages, PagesFor(sz, pageSize), old(model.used))
      ensures ptr == 0 ==> model == old(model)
      ensures var npages, used := PagesFor(sz, pageSize), old(model.used);
              forall k | 0 <= k < |draws| && Hits(draws, k, pages, npages, used)
                         && (forall j | 0 <= j < k :: !Hits(draws, j, pages, npages, used)) ::
                var index := Probe(draws[k], pages, npages);
                && ptr == base + index * pageSize
                && model == (if npages == 0 then old(model)
                             else Model(used + Run(index, npages), old(model.runs)[index := npages]))
    {
      var npages := PagesFor(sz, pageSize);
      var k := 0;
      while k < |draws|
        invariant k <= |draws| && Valid() && model == old(model)
        invariant forall j :: 0 <= j < k ==> !Hits(draws, j, pages, npages, old(model.used))
      {
        var index := Probe(draws[k], pages, npages);
        var claimed := TrySetRun(index, npages);
        if claimed {
          assert Hits(draws, k, pages, npages, old(model.used));
          HandedOutKeeps(pages, model, index, npages);
          model := HandedOut(model, index, npages);
          MulMonotone(0, index, pageSize);
          return base + index * pageSize;
        }
        k := k + 1;
      }
      ptr := 0;
    }

    /** All or nothing: a probe that meets a page in use resets the bits it has set. */
    method TrySetRun(index: nat, npages: nat) returns (claimed: bool)
      requires index + npages <= bitmap.Elements()
      modifies bitmap.words
      ensures claimed <==> Run(index, npages) !! old(bitmap.Contents())
      ensures bitmap.Contents()
              == if claimed then old(bitmap.Contents()) + Run(index, npages) else old(bitmap.Contents())
    {
      ghost var before := bitmap.Contents();
      var i := 0;
      while i < npages
        invariant i <= npages && bitmap.Contents() == before + Run(index, i) && Run(index, i) !! before
      {
        var ok := bitmap.TryToSet(index + i);
        if !ok {
          ResetRun(index, i);
          assert before + Run(index, i) - Run(index, i) == before;
          assert index + i in Run(index, npages);
          return false;
        }
        i := i + 1;
      }
      claimed := true;
    }

    /** Gives back the run at ptr, for which any address on its first page will do, or else any pages it is told to. */
    method Unmap(ptr: nat, sz: nat)
      requires Valid() && ptr >= base
      requires (ptr - base) / pageSize + PagesFor(sz, pageSize) <= bitmap.Elements()
      modifies `model, bitmap.words
      ensures Valid()
      ensures bitmap.Contents() == old(bitmap.Contents()) - Run((ptr - base) / pageSize, PagesFor(sz, pageSize))
      ensures var index := (ptr - base) / pageSize;
              if index in old(model.runs) && old(model.runs[index]) == PagesFor(sz, pageSize)
              then model == Apply(old(model), Event.Unmap(index)) && (old(Exact()) ==> Exact())
              else model.runs == old(model.runs)
    {
      var npages := PagesFor(sz, pageSize);
      var start := ptr - ptr % pageSize;
      SamePage(ptr, base, pageSize);
      var index := (start - base) / pageSize;
      ResetRun(index, npages);
      if index in model.runs && model.runs[index] == npages {
        if Partition(pages, model) { ApplyKeeps(pages, model, Event.Unmap(index)); }
        model := Apply(model, Event.Unmap(index));
      } else {
        model := Model(model.used - Run(index, npages), model.runs);
      }
    }

    method ResetRun(index: nat, npages: nat)
      requires index + npages <= bitmap.Elements()
      modifies bitmap.words
      ensures bitmap.Contents() == old(bitmap.Contents()) - Run(index, npages)
    {
      ghost var before := bitmap.Contents();
      var i := 0;
      while i < npages
        invariant i <= npages && bitmap.Contents() == before - Run(index, i)
      {
        var _ := bitmap.Reset(index + i);
        i := i + 1;
      }
    }
  }

  /** Masking off the low bits of an address stays on its page. */
  lemma SamePage(ptr: nat, base: nat, pageSize: nat)
    requires pageSize > 0 && ptr >= base && base % pageSize == 0
    ensures ptr - ptr % pageSize >= base
    ensures (ptr - ptr % pageSize - base) / pageSize == (ptr - base) / pageSize
  {
    var q, r, b := ptr / pageSize, ptr % pageSize, base / pageSize;
    assert ptr == q * pageSize + r && base == b * pageSize;
    QuotientMonotone(base, ptr, pageSize);
    assert (q - b) * pageSize == q * pageSize - b * pageSize;
    MulMonotone(b, q, pageSize);
    DivModUnique(ptr - base, pageSize, q - b, r);
    DivModUnique(ptr - r - base, pageSize, q - b, 0);
  }

  lemma QuotientMonotone(a: nat, b: nat, d: nat)
    requires d > 0 && a <= b
    ensures a / d <= b / d
  {
    var x, y := a / d, b / d;
    assert a == x * d + a % d && b == y * d + b % d;
    assert (y + 1) * d == y * d + d;
    if y < x { MulMonotone(y + 1, x, d); }
  }
}
