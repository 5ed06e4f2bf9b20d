/**
 * DieHarder's page table (src/include/dieharder-pagetable.h) and the miniheap
 * whose pages are mapped one by one (src/include/randomminiheap-dieharder.h).
 * The addresses the operating system returns are an argument of Activate.
 */
module DieHarder {
  import opened PowersOfTwo
  import opened HashTable
  import opened BitMaps

  // ---------------------------------------------------------------------
  // How objects lie on pages
  // ---------------------------------------------------------------------

  datatype Layout = Layout(pageSize: nat, objectSize: nat, numObjects: nat) {

    /** Objects of at most a page divide it evenly; larger ones are whole pages. */
    predicate Ok() {
      && pageSize > 0 && objectSize > 0 && numObjects > 0
      && (if objectSize <= pageSize then pageSize % objectSize == 0 else objectSize % pageSize == 0)
    }

    function ObjectsPerPage(): (r: nat)
      requires Ok()
      ensures r > 0
    {
      if objectSize <= pageSize then
        Quotient(pageSize, objectSize);
        pageSize / objectSize
      else 1
    }

    function PagesPerObject(): (r: nat)
      requires Ok()
      ensures r > 0
    {
      if objectSize <= pageSize then 1
      else
        Quotient(objectSize, pageSize);
        objectSize / pageSize
    }

    /** The number of separately mapped runs of pages. */
    function NumEntries(): nat
      requires Ok()
    {
      if objectSize <= pageSize then (numObjects * objectSize + pageSize - 1) / pageSize else numObjects
    }
  }

  lemma Quotient(n: nat, d: nat)
    requires d > 0 && n >= d
    ensures n / d > 0
  {
  }

  /** Sizes that are powers of two, as every size class is, always fit. */
  lemma PowersOfTwoOk(k: nat, j: nat, numObjects: nat)
    requires numObjects > 0
    ensures Layout(Pow2(k), Pow2(j), numObjects).Ok()
  {
    if j <= k {
      Pow2Add(k - j, j);
      DivModUnique(Pow2(k), Pow2(j), Pow2(k - j), 0);
    }
    if k <= j {
      Pow2Add(j - k, k);
      DivModUnique(Pow2(j), Pow2(k), Pow2(j - k), 0);
    }
    if j < k { Pow2Strict(j, k); }
    if k < j { Pow2Strict(k, j); }
  }

  /** The source's table of runs has room for every run it maps. */
  lemma EntriesSuffice(l: Layout, i: nat)
    requires l.Ok() && i < l.numObjects
    ensures i / l.ObjectsPerPage() < l.NumEntries()
  {
    if l.objectSize <= l.pageSize {
      var opp, n, q := l.ObjectsPerPage(), l.NumEntries(), i / l.ObjectsPerPage();
      WholeObjects(l);
      var total := l.numObjects * l.objectSize;
      RoundedUp(total, l.pageSize);
      assert q * opp <= i;
      MulMonotone(q * opp, l.numObjects - 1, l.objectSize);
      Reassociate(q, opp, l.objectSize);
      Distribute(l.numObjects - 1, 1, l.objectSize);
      if n <= q { MulMonotone(n, q, l.pageSize); }
    }
  }

  lemma RoundedUp(n: nat, d: nat)
    requires d > 0
    ensures ((n + d - 1) / d) * d >= n
  {
    var q := (n + d - 1) / d;
    assert n + d - 1 == q * d + (n + d - 1) % d;
  }

  lemma WholeObjects(l: Layout)
    requires l.Ok() && l.objectSize <= l.pageSize
    ensures l.ObjectsPerPage() * l.objectSize == l.pageSize
  {
    assert l.pageSize == (l.pageSize / l.objectSize) * l.objectSize + l.pageSize % l.objectSize;
  }

  lemma WholePages(l: Layout)
    requires l.Ok() && l.objectSize > l.pageSize
    ensures l.PagesPerObject() * l.pageSize == l.objectSize
  {
    assert l.objectSize == (l.objectSize / l.pageSize) * l.pageSize + l.objectSize % l.pageSize;
  }

  function PageNumber(l: Layout, addr: nat): nat
    requires l.Ok()
  {
    addr / l.pageSize
  }

  /** Where object i begins, when run e of pages begins at pages[e]. */
  function ObjectAddress(l: Layout, pages: seq<nat>, i: nat): nat
    requires l.Ok() && i / l.ObjectsPerPage() < |pages|
  {
    pages[i / l.ObjectsPerPage()] + if l.objectSize > l.pageSize then 0 else (i % l.ObjectsPerPage()) * l.objectSize
  }

  /** What the operating system must return: page-aligned runs without a page in common. */
  ghost predicate PagesOk(l: Layout, pages: seq<nat>)
    requires l.Ok()
  {
    && (forall e :: 0 <= e < |pages| ==> pages[e] > 0 && pages[e] % l.pageSize == 0)
    && forall e, f, p, r | 0 <= e < |pages| && 0 <= f < |pages|
                           && 0 <= p < l.PagesPerObject() && 0 <= r < l.PagesPerObject() ::
         RunPage(l, pages, e, p) == RunPage(l, pages, f, r) ==> e == f && p == r
  }

  /** The number of page p of run e. */
  function RunPage(l: Layout, pages: seq<nat>, e: nat, p: nat): nat
    requires l.Ok() && e < |pages|
  {
    pages[e] / l.pageSize + p
  }

  /** The table has the entry the source inserts for page p of run e. */
  ghost predicate Mapped(l: Layout, pages: seq<nat>, heap: nat, m: map<nat, PageTableEntry>, e: nat, p: nat)
    requires l.Ok() && e < |pages|
  {
    var n := RunPage(l, pages, e, p);
    n in m && m[n] == PageTableEntry(n, heap, e * l.ObjectsPerPage())
  }

  /** The entries for the first n runs are in the table. */
  ghost predicate Covers(l: Layout, pages: seq<nat>, heap: nat, m: map<nat, PageTableEntry>, n: nat)
    requires l.Ok() && n <= |pages|
  {
    forall e, p | 0 <= e < n && 0 <= p < l.PagesPerObject() :: Mapped(l, pages, heap, m, e, p)
  }

  /** Which object of its page ptr is in. */
  function WithinPage(l: Layout, ptr: nat): nat
    requires l.Ok()
  {
    (ptr % l.pageSize) / l.objectSize
  }

  /** The address-to-index computation, given the table's entry for the page. */
  function IndexFrom(l: Layout, pageIndex: nat, ptr: nat): nat
    requires l.Ok()
  {
    if l.ObjectsPerPage() == 1 then pageIndex else pageIndex + WithinPage(l, ptr)
  }

  /** Byte d of object i is on a page of i's run, and both ways back give i and d. */
  lemma IndexInverse(l: Layout, pages: seq<nat>, heap: nat, m: map<nat, PageTableEntry>, i: nat, d: nat)
    requires l.Ok() && PagesOk(l, pages) && d < l.objectSize
    requires i / l.ObjectsPerPage() < |pages| && Covers(l, pages, heap, m, |pages|)
    ensures var ptr := ObjectAddress(l, pages, i) + d;
            && PageNumber(l, ptr) in m && m[PageNumber(l, ptr)].heap == heap
            && IndexFrom(l, m[PageNumber(l, ptr)].objectIndex, ptr) == i
            && (l.objectSize <= l.pageSize ==> l.objectSize - ptr % l.objectSize == l.objectSize - d)
  {
    var opp, e := l.ObjectsPerPage(), i / l.ObjectsPerPage();
    var ptr := ObjectAddress(l, pages, i) + d;
    SplitIndex(i, opp);
    if l.objectSize <= l.pageSize {
      SmallObject(l, pages[e], i % opp, d);
      assert Mapped(l, pages, heap, m, e, 0);
      if opp == 1 { assert e * opp == i; }
    } else {
      LargeObject(l, pages[e], d);
      assert Mapped(l, pages, heap, m, e, d / l.pageSize);
      assert e * opp == i;
    }
  }

  /** ptr is a byte of object i. */
  predicate InObject(l: Layout, pages: seq<nat>, i: nat, ptr: nat)
    requires l.Ok()
  {
    && i / l.ObjectsPerPage() < |pages|
    && ObjectAddress(l, pages, i) <= ptr < ObjectAddress(l, pages, i) + l.objectSize
  }

  /** An address on page p of run e is a byte of the object whose index is computed for it. */
  lemma IndexOfPage(l: Layout, pages: seq<nat>, e: nat, p: nat, ptr: nat)
    requires l.Ok() && PagesOk(l, pages) && e < |pages| && p < l.PagesPerObject()
    requires PageNumber(l, ptr) == RunPage(l, pages, e, p)
    ensures InObject(l, pages, IndexFrom(l, e * l.ObjectsPerPage(), ptr), ptr)
  {
    SplitIndex(ptr, l.pageSize);
    SplitIndex(pages[e], l.pageSize);
    if l.objectSize <= l.pageSize {
      IndexOnPage(l, pages, e, ptr);
    } else {
      Distribute(pages[e] / l.pageSize, p, l.pageSize);
      MulMonotone(p + 1, l.PagesPerObject(), l.pageSize);
      Distribute(p, 1, l.pageSize);
      WholePages(l);
      DivModUnique(e, 1, e, 0);
    }
  }

  lemma IndexOnPage(l: Layout, pages: seq<nat>, e: nat, ptr: nat)
    requires l.Ok() && l.objectSize <= l.pageSize && e < |pages| && pages[e] <= ptr < pages[e] + l.pageSize
    requires ptr % l.pageSize == ptr - pages[e]
    ensures InObject(l, pages, IndexFrom(l, e * l.ObjectsPerPage(), ptr), ptr)
  {
    var opp, off := l.ObjectsPerPage(), ptr - pages[e];
    var r := off / l.objectSize;
    WholeObjects(l);
    SplitIndex(off, l.objectSize);
    if r >= opp { MulMonotone(opp, r, l.objectSize); }
    assert IndexFrom(l, e * opp, ptr) == e * opp + r;
    DivModUnique(e * opp + r, opp, e, r);
  }

  lemma SplitIndex(i: nat, n: nat)
    requires n > 0
    ensures i == (i / n) * n + i % n
    ensures n == 1 ==> i % n == 0
  {
  }

  /** Object r of the page at base, d bytes in. */
  lemma SmallObject(l: Layout, base: nat, r: nat, d: nat)
    requires l.Ok() && l.objectSize <= l.pageSize && base % l.pageSize == 0
    requires r < l.ObjectsPerPage() && d < l.objectSize
    ensures var ptr := base + r * l.objectSize + d;
            && ptr / l.pageSize == base / l.pageSize
            && (ptr % l.pageSize) / l.objectSize == r
            && ptr % l.objectSize == d
  {
    var ptr, q := base + r * l.objectSize + d, base / l.pageSize;
    var opp, size := l.ObjectsPerPage(), l.objectSize;
    WholeObjects(l);
    SplitIndex(base, l.pageSize);
    MulMonotone(r + 1, opp, size);
    Distribute(r, 1, size);
    DivModUnique(ptr, l.pageSize, q, r * size + d);
    DivModUnique(r * size + d, size, r, d);
    Reassociate(q, opp, size);
    Distribute(q * opp, r, size);
    DivModUnique(ptr, size, q * opp + r, d);
  }

  lemma LargeObject(l: Layout, base: nat, d: nat)
    requires l.Ok() && l.objectSize > l.pageSize && base % l.pageSize == 0 && d < l.objectSize
    ensures d / l.pageSize < l.PagesPerObject()
    ensures (base + d) / l.pageSize == base / l.pageSize + d / l.pageSize
  {
    var p, q, n := l.pageSize, base / l.pageSize, d / l.pageSize;
    WholePages(l);
    SplitIndex(base, p);
    SplitIndex(d, p);
    Distribute(q, n, p);
    DivModUnique(base + d, p, q + n, d % p);
    if n >= l.PagesPerObject() { MulMonotone(l.PagesPerObject(), n, p); }
  }

  // ---------------------------------------------------------------------
  // The page table and the miniheap
  // ---------------------------------------------------------------------

  class PageTable {
    const pageSize: nat
    const table: DynamicHashTable

    /** The entry of each page, when none was entered twice. */
    ghost var model: map<nat, PageTableEntry>

    ghost predicate Valid()
      reads this, table, table.entries
    {
      pageSize > 0 && table.Valid()
    }

    /** No page was entered twice, so that the model says everything. */
    ghost predicate Exact()
      reads this, table, table.entries
    {
      Valid() && Represents(model, table.contents)
    }

    constructor (pageSize: nat, initialSize: nat)
      requires pageSize > 0 && initialSize >= LOAD_FACTOR_RECIPROCAL && PowerOfTwo(initialSize)
      ensures Exact() && model == map[] && this.pageSize == pageSize
      ensures fresh(table) && fresh(table.entries)
    {
      this.pageSize := pageSize;
      table := new DynamicHashTable(initialSize);
      model := map[];
    }

    /** The heap of an entry for the page of ptr, or null when there is none. */
    method GetHeap(ptr: nat) returns (heap: nat)
      requires Valid()
      ensures (heap == 0 && Absent(table.contents, ptr / pageSize))
              || exists e :: e in table.contents && e.pageNumber == ptr / pageSize && e.heap == heap
      ensures Exact() ==> heap == if ptr / pageSize in model then model[ptr / pageSize].heap else 0
    {
      var entry := table.Get(ptr / pageSize);
      heap := if entry.None? then 0 else entry.value.heap;
    }

    /** The object index of an entry for the page of ptr; the source asserts that there is one. */
    method GetObjectIndex(ptr: nat) returns (index: nat)
      requires Valid() && !Absent(table.contents, ptr / pageSize)
      ensures exists e :: e in table.contents && e.pageNumber == ptr / pageSize && e.objectIndex == index
      ensures Exact() ==> ptr / pageSize in model && index == model[ptr / pageSize].objectIndex
    {
      var entry := table.Get(ptr / pageSize);
      index := entry.value.objectIndex;
    }

    /** Adds an entry; a page that is new to the table extends the model. */
    method Insert(pageNumber: nat, heap: nat, index: nat)
      requires Valid()
      modifies this, table, table.entries
      ensures Valid() && table.contents == old(table.contents) + multiset{PageTableEntry(pageNumber, heap, index)}
      ensures old(Exact()) && pageNumber !in old(model) ==>
                Exact() && model == old(model)[pageNumber := PageTableEntry(pageNumber, heap, index)]
      ensures table.entries == old(table.entries) || fresh(table.entries)
    {
      ghost var s := PageTableEntry(pageNumber, heap, index);
      if Represents(model, table.contents) && pageNumber !in model {
        MapExtends(model, table.contents, s);
      }
      model := model[pageNumber := s];
      table.Insert(PageTableEntry(pageNumber, heap, index));
    }
  }

  class RandomMiniHeapDieHarder {
    const layout: Layout
    const id: nat
    const pageTable: PageTable
    const mapEntryToPage: array<nat>
    const bitmap: BitMap
    var isActivated: bool

    /** The runs of pages this miniheap mapped. */
    ghost var pages: seq<nat>

    ghost predicate Shape()
      reads pageTable, pageTable.table, pageTable.table.entries
    {
      && layout.Ok() && id > 0 && layout.pageSize == pageTable.pageSize
      && mapEntryToPage.Length == layout.NumEntries()
      && pageTable.Exact()
    }

    /** What was mapped, and that the page table names this miniheap for exactly those pages. */
    ghost predicate RunsOk()
      requires layout.Ok()
      reads `pages, pageTable`model, mapEntryToPage
    {
      Open(layout, pages, id, pageTable.model, mapEntryToPage[..])
    }

    ghost predicate Valid()
      reads this, pageTable, pageTable.table, pageTable.table.entries, mapEntryToPage, bitmap
      reads bitmap.words
    {
      && Shape()
      && (isActivated ==> layout.numObjects <= bitmap.Elements() && RunsOk())
      && (!isActivated ==> NotNamed(id, pageTable.model))
    }

    constructor (layout: Layout, id: nat, pageTable: PageTable)
      requires layout.Ok() && id > 0 && pageTable.Exact() && layout.pageSize == pageTable.pageSize
      requires NotNamed(id, pageTable.model)
      ensures Valid() && !isActivated
      ensures this.layout == layout && this.id == id && this.pageTable == pageTable
      ensures fresh(mapEntryToPage) && fresh(bitmap) && fresh(bitmap.words)
    {
      this.layout := layout;
      this.id := id;
      this.pageTable := pageTable;
      mapEntryToPage := new nat[layout.NumEntries()];
      bitmap := new BitMap();
      isActivated := false;
      pages := [];
    }

    /** What the operating system's answers must satisfy before they are entered into the table. */
    ghost predicate Fresh(mapped: seq<nat>)
      requires layout.Ok()
      reads pageTable`model
    {
      && |mapped| == Runs(layout) && PagesOk(layout, mapped)
      && NotYetMapped(layout, mapped, 0, pageTable.model)
    }

    /** Another miniheap that enters its pages into the same table. */
    ghost predicate Beside(o: RandomMiniHeapDieHarder)
    {
      && o != this && o.pageTable == pageTable && o.id != id
      && o.mapEntryToPage != mapEntryToPage && o.bitmap != bitmap
    }

    /** What a caller may rely on when the runs are entered into a table that was before. */
    ghost predicate Activated(mapped: seq<nat>, before: map<nat, PageTableEntry>)
      reads this, pageTable, pageTable.table, pageTable.table.entries, mapEntryToPage, bitmap
      reads bitmap.words
    {
      && Valid() && isActivated && pages == mapped
      && Extends(before, pageTable.model) && AddedFor(id, before, pageTable.model)
    }

    /**
     * Maps the runs one by one and enters every page of each into the page
     * table.  Other miniheaps on the same table stay as they are.
     */
    method Activate(mapped: seq<nat>, ghost others: set<RandomMiniHeapDieHarder>)
      requires Valid() && (!isActivated ==> Fresh(mapped))
      requires forall o | o in others :: o.Valid() && Beside(o)
      modifies `pages, `isActivated, bitmap, pageTable, pageTable.table, pageTable.table.entries, mapEntryToPage
      ensures Valid() && isActivated
      ensures old(isActivated) ==>
                pages == old(pages) && pageTable.model == old(pageTable.model) && bitmap.words == old(bitmap.words)
      ensures !old(isActivated) ==>
                Activated(mapped, old(pageTable.model)) && bitmap.Contents() == {} && fresh(bitmap.words)
      ensures pageTable.table.entries == old(pageTable.table.entries) || fresh(pageTable.table.entries)
      ensures forall o | o in others :: o.Valid()
    {
      if !isActivated {
        ghost var before := pageTable.model;
        InternalActivate(mapped);
        forall o | o in others
          ensures o.Valid()
        {
          o.StaysValid(before, id);
        }
      }
    }

    /** Pages entered for another miniheap do not concern this one. */
    lemma StaysValid(before: map<nat, PageTableEntry>, other: nat)
      requires Shape() && other != id && Extends(before, pageTable.model) && AddedFor(other, before, pageTable.model)
      requires isActivated ==>
                 && layout.numObjects <= bitmap.Elements()
                 && Open(layout, pages, id, before, mapEntryToPage[..])
      requires !isActivated ==> NotNamed(id, before)
      ensures Valid()
    {
      if isActivated {
        OpenStays(layout, pages, id, before, pageTable.model, mapEntryToPage[..], other);
      } else {
        NotNamedStays(id, before, pageTable.model, other);
      }
    }

    method InternalActivate(mapped: seq<nat>)
      requires Shape() && !isActivated && NotNamed(id, pageTable.model) && Fresh(mapped)
      modifies `pages, `isActivated, bitmap, pageTable, pageTable.table, pageTable.table.entries, mapEntryToPage
      ensures Activated(mapped, old(pageTable.model)) && bitmap.Contents() == {} && fresh(bitmap.words)
      ensures pageTable.table.entries == old(pageTable.table.entries) || fresh(pageTable.table.entries)
    {
      ghost var before := pageTable.model;
      bitmap.Reserve(layout.numObjects);
      MapRuns(mapped);
      AllEntered(layout, mapped, id, before, pageTable.model, mapEntryToPage[..]);
      SetActivated(mapped);
    }

    method SetActivated(ghost mapped: seq<nat>)
      requires Shape() && layout.numObjects <= bitmap.Elements()
      requires Open(layout, mapped, id, pageTable.model, mapEntryToPage[..])
      modifies `pages, `isActivated
      ensures Valid() && isActivated && pages == mapped
    {
      pages := mapped;
      isActivated := true;
    }

    /** The loop over the runs. */
    method MapRuns(mapped: seq<nat>)
      requires Shape() && Fresh(mapped)
      modifies pageTable, pageTable.table, pageTable.table.entries, mapEntryToPage
      ensures Shape() && Starts(mapEntryToPage[..], mapped, |mapped|)
      ensures RunsEntered(layout, mapped, id, old(pageTable.model), pageTable.model, |mapped|)
      ensures pageTable.table.entries == old(pageTable.table.entries) || fresh(pageTable.table.entries)
    {
      ghost var before := pageTable.model;
      var objectIndex: nat := 0;
      ghost var e: nat := 0;
      FirstRun(layout);
      NoneEntered(layout, mapped, id, before);
      while objectIndex < layout.numObjects
        invariant StartOf(layout, e, objectIndex) && e <= |mapped|
        invariant Shape() && Starts(mapEntryToPage[..], mapped, e)
        invariant RunsEntered(layout, mapped, id, before, pageTable.model, e)
        invariant pageTable.table.entries == old(pageTable.table.entries) || fresh(pageTable.table.entries)
        decreases |mapped| - e
      {
        MapRun(mapped, e, objectIndex, before);
        NextRun(layout, e, objectIndex);
        objectIndex := objectIndex + layout.ObjectsPerPage();
        e := e + 1;
      }
    }

    /** One turn of that loop: run e is mapped and entered. */
    method MapRun(mapped: seq<nat>, ghost e: nat, objectIndex: nat, ghost before: map<nat, PageTableEntry>)
      requires Shape() && e < |mapped| <= mapEntryToPage.Length && PagesOk(layout, mapped)
      requires objectIndex == e * layout.ObjectsPerPage() && Starts(mapEntryToPage[..], mapped, e)
      requires RunsEntered(layout, mapped, id, before, pageTable.model, e)
      modifies pageTable, pageTable.table, pageTable.table.entries, mapEntryToPage
      ensures Shape() && Starts(mapEntryToPage[..], mapped, e + 1)
      ensures RunsEntered(layout, mapped, id, before, pageTable.model, e + 1)
      ensures pageTable.table.entries == old(pageTable.table.entries) || fresh(pageTable.table.entries)
    {
      DivModUnique(objectIndex, layout.ObjectsPerPage(), e, 0);
      var pagesAddr := mapped[objectIndex / layout.ObjectsPerPage()];
      SetPageFromIndex(objectIndex, e, pagesAddr);
      MapPages(mapped, e, pagesAddr, objectIndex, before);
    }

    method SetPageFromIndex(index: nat, ghost e: nat, pageAddr: nat)
      requires layout.Ok() && e < mapEntryToPage.Length && index == e * layout.ObjectsPerPage()
      modifies mapEntryToPage
      ensures mapEntryToPage[..] == old(mapEntryToPage[..])[e := pageAddr]
    {
      DivModUnique(index, layout.ObjectsPerPage(), e, 0);
      mapEntryToPage[index / layout.ObjectsPerPage()] := pageAddr;
    }

    /** Enters the pages of run e, one after the other. */
    method MapPages(ghost mapped: seq<nat>, ghost e: nat, pagesAddr: nat, objectIndex: nat,
                    ghost first: map<nat, PageTableEntry>)
      requires Shape() && e < |mapped| && pagesAddr == mapped[e] && PagesOk(layout, mapped)
      requires objectIndex == e * layout.ObjectsPerPage()
      requires RunsEntered(layout, mapped, id, first, pageTable.model, e)
      modifies pageTable, pageTable.table, pageTable.table.entries
      ensures Shape()
      ensures RunsEntered(layout, mapped, id, first, pageTable.model, e + 1)
      ensures pageTable.table.entries == old(pageTable.table.entries) || fresh(pageTable.table.entries)
    {
      ghost var before := pageTable.model;
      NoPageEntered(layout, mapped, id, before, e);
      for p := 0 to layout.PagesPerObject()
        invariant Shape()
        invariant RunEntered(layout, mapped, id, before, pageTable.model, e, p)
        invariant pageTable.table.entries == old(pageTable.table.entries) || fresh(pageTable.table.entries)
      {
        MapPage(mapped, e, pagesAddr, p, objectIndex, before);
      }
      RunDone(layout, mapped, id, first, before, pageTable.model, e);
    }

    /** Enters page p of run e. */
    method MapPage(ghost mapped: seq<nat>, ghost e: nat, pagesAddr: nat, p: nat, objectIndex: nat,
                   ghost before: map<nat, PageTableEntry>)
      requires Shape() && e < |mapped| && pagesAddr == mapped[e] && PagesOk(layout, mapped)
      requires objectIndex == e * layout.ObjectsPerPage()
      requires p < layout.PagesPerObject() && NotYetMapped(layout, mapped, e, before)
      requires RunEntered(layout, mapped, id, before, pageTable.model, e, p)
      modifies pageTable, pageTable.table, pageTable.table.entries
      ensures Shape()
      ensures RunEntered(layout, mapped, id, before, pageTable.model, e, p + 1)
      ensures pageTable.table.entries == old(pageTable.table.entries) || fresh(pageTable.table.entries)
    {
      WholePageNumber(layout, mapped, e, p);
      EnterPage(layout, mapped, id, before, pageTable.model, e, p);
      pageTable.Insert((pagesAddr + p * layout.pageSize) / layout.pageSize, id, objectIndex);
    }

    /** Where the run that holds object index begins. */
    method GetPageFromIndex(index: nat) returns (page: nat)
      requires layout.Ok() && |pages| == Runs(layout) && Starts(mapEntryToPage[..], pages, |pages|)
      requires index < layout.numObjects
      ensures index / layout.ObjectsPerPage() < |pages| && page == pages[index / layout.ObjectsPerPage()]
    {
      IndexHasRun(layout, index);
      page := mapEntryToPage[RunOfIndex(layout, index)];
      assert page == mapEntryToPage[..][RunOfIndex(layout, index)];
    }

    /** Where object index begins, or null before activation. */
    method GetObject(index: nat) returns (ptr: nat)
      requires Valid() && index < layout.numObjects
      ensures !isActivated ==> ptr == 0
      ensures isActivated ==> index / layout.ObjectsPerPage() < |pages| && ptr == ObjectAddress(layout, pages, index)
    {
      if !isActivated {
        return 0;
      }
      var page := GetPageFromIndex(index);
      if layout.objectSize > layout.pageSize {
        return page;
      }
      var whichObject := index % layout.ObjectsPerPage();
      ptr := page + whichObject * layout.objectSize;
    }

    /** The page table names this miniheap for the page of ptr. */
    method InBounds(ptr: nat) returns (inside: bool)
      requires Valid()
      ensures inside <==> isActivated && Known(ptr)
    {
      if !isActivated {
        return false;
      }
      var heap := pageTable.GetHeap(ptr);
      inside := heap == id;
    }

    ghost predicate Known(ptr: nat)
      requires layout.Ok()
      reads pageTable`model
    {
      PageNumber(layout, ptr) in pageTable.model && pageTable.model[PageNumber(layout, ptr)].heap == id
    }

    ghost function IndexOf(ptr: nat): nat
      requires layout.Ok() && Known(ptr)
      reads pageTable`model
    {
      IndexFrom(layout, pageTable.model[PageNumber(layout, ptr)].objectIndex, ptr)
    }

    /** An address the page table knows is a byte of the object with the computed index. */
    lemma KnownIsInObject(ptr: nat)
      requires layout.Ok() && RunsOk() && Known(ptr)
      ensures InObject(layout, pages, IndexOf(ptr), ptr)
    {
      var n := PageNumber(layout, ptr);
      assert Named(id, pageTable.model, n);
      var e, p := RunOf(layout, pages, |pages|, n);
      assert Mapped(layout, pages, id, pageTable.model, e, p);
      IndexOfPage(layout, pages, e, p, ptr);
    }

    /** The index of the object that ptr is a byte of. */
    method ComputeIndex(ptr: nat) returns (index: nat)
      requires Shape() && RunsOk() && Known(ptr)
      ensures index == IndexOf(ptr) && InObject(layout, pages, index, ptr)
    {
      KnownIsInObject(ptr);
      var pageIdx := pageTable.GetObjectIndex(ptr);
      if layout.ObjectsPerPage() == 1 {
        return pageIdx;
      }
      index := pageIdx + WithinPage(layout, ptr);
    }

    lemma SmallRemaining(ptr: nat)
      requires Valid() && isActivated && Known(ptr) && layout.objectSize < layout.pageSize
      ensures InObject(layout, pages, IndexOf(ptr), ptr)
      ensures ptr + (layout.objectSize - ptr % layout.objectSize)
              == ObjectAddress(layout, pages, IndexOf(ptr)) + layout.objectSize
    {
      KnownIsInObject(ptr);
      var i := IndexOf(ptr);
      IndexInverse(layout, pages, id, pageTable.model, i, ptr - ObjectAddress(layout, pages, i));
    }

    lemma ActivatedWhenKnown(ptr: nat)
      requires Valid() && Known(ptr)
      ensures isActivated
    {
      assert Named(id, pageTable.model, PageNumber(layout, ptr));
    }

    /**
     * The bytes from ptr to the end of the object it is in.  For objects of a
     * page and more the source asserts that the page table knows the page.
     */
    method GetSize(ptr: nat) returns (remaining: nat)
      requires Valid() && (layout.objectSize >= layout.pageSize ==> Known(ptr))
      ensures 0 < remaining <= layout.objectSize
      ensures isActivated && Known(ptr) ==>
                && InObject(layout, pages, IndexOf(ptr), ptr)
                && ptr + remaining == ObjectAddress(layout, pages, IndexOf(ptr)) + layout.objectSize
    {
      if layout.objectSize < layout.pageSize {
        remaining := layout.objectSize - ptr % layout.objectSize;
        if isActivated && Known(ptr) { SmallRemaining(ptr); }
      } else {
        ActivatedWhenKnown(ptr);
        KnownIsInObject(ptr);
        ghost var i := IndexOf(ptr);
        LargeIndexInRange(layout, pages, i);
        var index := ComputeIndex(ptr);
        var start := GetObject(index);
        remaining := layout.objectSize - (ptr - start);
      }
    }

    /**
     * Nothing happens for an address the page table does not name this
     * miniheap for; for any other, the bit of the object it is in is cleared
     * and no other.  The source asserts that this object exists.
     */
    method Free(ptr: nat) returns (didFree: bool)
      requires Valid() && (isActivated && Known(ptr) ==> IndexOf(ptr) < layout.numObjects)
      modifies bitmap.words
      ensures Valid()
      ensures !(isActivated && Known(ptr)) ==> !didFree && bitmap.Contents() == old(bitmap.Contents())
      ensures isActivated && Known(ptr) ==>
                && InObject(layout, pages, IndexOf(ptr), ptr)
                && (didFree <==> IndexOf(ptr) in old(bitmap.Contents()))
                && bitmap.Contents() == old(bitmap.Contents()) - {IndexOf(ptr)}
    {
      var inside := InBounds(ptr);
      if !inside {
        return false;
      }
      var index := ComputeIndex(ptr);
      didFree := bitmap.Reset(index);
    }
  }

  /** Objects of at least a page have a run each. */
  lemma LargeIndexInRange(l: Layout, pages: seq<nat>, i: nat)
    requires l.Ok() && l.objectSize >= l.pageSize && |pages| == Runs(l) && i / l.ObjectsPerPage() < |pages|
    ensures i < l.numObjects
  {
    if l.objectSize == l.pageSize { DivModUnique(l.pageSize, l.objectSize, 1, 0); }
    assert l.ObjectsPerPage() == 1;
    RunsExact(l, i);
  }

  ghost predicate Extends(m: map<nat, PageTableEntry>, m': map<nat, PageTableEntry>) {
    forall n: nat :: Kept(m, m', n)
  }

  predicate Kept(m: map<nat, PageTableEntry>, m': map<nat, PageTableEntry>, n: nat) {
    n in m ==> n in m' && m'[n] == m[n]
  }

  /** The entry for page n names the heap. */
  predicate Named(heap: nat, m: map<nat, PageTableEntry>, n: nat) {
    n in m && m[n].heap == heap
  }

  ghost predicate NotNamed(heap: nat, m: map<nat, PageTableEntry>) {
    forall n: nat :: !Named(heap, m, n)
  }

  /** What m' has beyond m names the heap. */
  ghost predicate AddedFor(heap: nat, m: map<nat, PageTableEntry>, m': map<nat, PageTableEntry>) {
    forall n: nat :: AddedAt(heap, m, m', n)
  }

  predicate AddedAt(heap: nat, m: map<nat, PageTableEntry>, m': map<nat, PageTableEntry>, n: nat) {
    n in m' ==> n in m || Named(heap, m', n)
  }

  /** The heap is named only for pages of the first n runs. */
  ghost predicate OnlyRuns(l: Layout, pages: seq<nat>, heap: nat, m: map<nat, PageTableEntry>, n: nat)
    requires l.Ok() && n <= |pages|
  {
    forall k: nat | Named(heap, m, k) :: InRuns(l, pages, n, k)
  }

  /** Page k is one of the first n pages of run e. */
  predicate OnRun(l: Layout, pages: seq<nat>, e: nat, n: nat, k: nat)
    requires l.Ok() && e < |pages|
  {
    pages[e] / l.pageSize <= k < pages[e] / l.pageSize + n
  }

  /** Page k is on one of the first n runs. */
  predicate InRuns(l: Layout, pages: seq<nat>, n: nat, k: nat)
    requires l.Ok() && n <= |pages|
  {
    n > 0 && (OnRun(l, pages, n - 1, l.PagesPerObject(), k) || InRuns(l, pages, n - 1, k))
  }

  lemma {:induction false} RunOf(l: Layout, pages: seq<nat>, n: nat, k: nat) returns (e: nat, p: nat)
    requires l.Ok() && n <= |pages| && InRuns(l, pages, n, k)
    ensures e < n && p < l.PagesPerObject() && RunPage(l, pages, e, p) == k
  {
    if OnRun(l, pages, n - 1, l.PagesPerObject(), k) {
      e, p := n - 1, k - pages[n - 1] / l.pageSize;
    } else {
      e, p := RunOf(l, pages, n - 1, k);
    }
  }

  /** No page of run e or of a later one is in the table. */
  ghost predicate NotYetMapped(l: Layout, pages: seq<nat>, e: nat, m: map<nat, PageTableEntry>)
    requires l.Ok()
  {
    forall f: nat, p: nat | e <= f < |pages| && p < l.PagesPerObject() :: RunPage(l, pages, f, p) !in m
  }

  /** m' is m with the pages of the first n runs. */
  ghost predicate RunsEntered(l: Layout, pages: seq<nat>, heap: nat,
                              m: map<nat, PageTableEntry>, m': map<nat, PageTableEntry>, n: nat)
    requires l.Ok()
  {
    && n <= |pages| && Extends(m, m') && AddedFor(heap, m, m')
    && Covers(l, pages, heap, m', n) && NotYetMapped(l, pages, n, m')
    && (NotNamed(heap, m) ==> OnlyRuns(l, pages, heap, m', n))
  }

  /** m' is m with the first n pages of run e. */
  ghost predicate RunEntered(l: Layout, pages: seq<nat>, heap: nat,
                             m: map<nat, PageTableEntry>, m': map<nat, PageTableEntry>, e: nat, n: nat)
    requires l.Ok() && e < |pages|
  {
    && Extends(m, m')
    && (forall p: nat | p < n :: Mapped(l, pages, heap, m', e, p))
    && (forall k: nat :: FromRun(l, pages, m, m', e, n, k))
  }

  predicate FromRun(l: Layout, pages: seq<nat>, m: map<nat, PageTableEntry>, m': map<nat, PageTableEntry>,
                    e: nat, n: nat, k: nat)
    requires l.Ok() && e < |pages|
  {
    k in m' ==> k in m || OnRun(l, pages, e, n, k)
  }

  lemma NoPageEntered(l: Layout, pages: seq<nat>, heap: nat, m: map<nat, PageTableEntry>, e: nat)
    requires l.Ok() && e < |pages|
    ensures RunEntered(l, pages, heap, m, m, e, 0)
  {
  }

  lemma EnterPage(l: Layout, pages: seq<nat>, heap: nat, m: map<nat, PageTableEntry>, m': map<nat, PageTableEntry>,
                  e: nat, n: nat)
    requires l.Ok() && e < |pages| && n < l.PagesPerObject()
    requires NotYetMapped(l, pages, e, m) && RunEntered(l, pages, heap, m, m', e, n)
    ensures var k := RunPage(l, pages, e, n);
            && k !in m'
            && RunEntered(l, pages, heap, m, m'[k := PageTableEntry(k, heap, e * l.ObjectsPerPage())], e, n + 1)
  {
    var k := RunPage(l, pages, e, n);
    var m'', next := m'[k := PageTableEntry(k, heap, e * l.ObjectsPerPage())], n + 1;
    assert FromRun(l, pages, m, m', e, n, k);
    forall p: nat | p < n + 1
      ensures Mapped(l, pages, heap, m'', e, p)
    {
      assert p < n ==> Mapped(l, pages, heap, m', e, p);
    }
    forall i: nat
      ensures Kept(m, m'', i) && FromRun(l, pages, m, m'', e, next, i)
    {
      assert Kept(m, m', i) && FromRun(l, pages, m, m', e, n, i);
    }
  }

  /** With its last page, run e is entered. */
  lemma RunDone(l: Layout, pages: seq<nat>, heap: nat, first: map<nat, PageTableEntry>, m: map<nat, PageTableEntry>,
                m': map<nat, PageTableEntry>, e: nat)
    requires l.Ok() && e < |pages| && PagesOk(l, pages)
    requires RunsEntered(l, pages, heap, first, m, e) && RunEntered(l, pages, heap, m, m', e, l.PagesPerObject())
    ensures RunsEntered(l, pages, heap, first, m', e + 1)
  {
    DoneCovers(l, pages, heap, m, m', e);
    DoneFresh(l, pages, heap, m, m', e);
    DoneAdded(l, pages, heap, first, m, m', e);
    if NotNamed(heap, first) { DoneOnly(l, pages, heap, m, m', e); }
  }

  lemma DoneCovers(l: Layout, pages: seq<nat>, heap: nat, m: map<nat, PageTableEntry>, m': map<nat, PageTableEntry>,
                   e: nat)
    requires l.Ok() && e < |pages| && Covers(l, pages, heap, m, e)
    requires RunEntered(l, pages, heap, m, m', e, l.PagesPerObject())
    ensures Covers(l, pages, heap, m', e + 1)
  {
    forall f, p | 0 <= f < e + 1 && 0 <= p < l.PagesPerObject()
      ensures Mapped(l, pages, heap, m', f, p)
    {
      assert f < e ==> Mapped(l, pages, heap, m, f, p) && Kept(m, m', RunPage(l, pages, f, p));
    }
  }

  /** Different runs have no page in common. */
  lemma NotOnRun(l: Layout, pages: seq<nat>, e: nat, f: nat, p: nat)
    requires l.Ok() && e < |pages| && f < |pages| && e != f && PagesOk(l, pages) && p < l.PagesPerObject()
    ensures !OnRun(l, pages, e, l.PagesPerObject(), RunPage(l, pages, f, p))
  {
    var q := RunPage(l, pages, f, p) - pages[e] / l.pageSize;
    if 0 <= q < l.PagesPerObject() { OtherPage(l, pages, e, q, f, p); }
  }

  lemma OtherPage(l: Layout, pages: seq<nat>, e: nat, q: nat, f: nat, p: nat)
    requires l.Ok() && e < |pages| && f < |pages| && e != f && PagesOk(l, pages)
    requires p < l.PagesPerObject() && q < l.PagesPerObject()
    ensures pages[e] / l.pageSize + q != RunPage(l, pages, f, p)
  {
    assert RunPage(l, pages, e, q) != RunPage(l, pages, f, p);
  }

  lemma DoneFresh(l: Layout, pages: seq<nat>, heap: nat, m: map<nat, PageTableEntry>, m': map<nat, PageTableEntry>,
                  e: nat)
    requires l.Ok() && e < |pages| && PagesOk(l, pages) && NotYetMapped(l, pages, e, m)
    requires RunEntered(l, pages, heap, m, m', e, l.PagesPerObject())
    ensures NotYetMapped(l, pages, e + 1, m')
  {
    forall f: nat, p: nat | e + 1 <= f < |pages| && p < l.PagesPerObject()
      ensures RunPage(l, pages, f, p) !in m'
    {
      NotOnRun(l, pages, e, f, p);
      assert FromRun(l, pages, m, m', e, l.PagesPerObject(), RunPage(l, pages, f, p));
    }
  }

  lemma DoneAdded(l: Layout, pages: seq<nat>, heap: nat, first: map<nat, PageTableEntry>, m: map<nat, PageTableEntry>,
                  m': map<nat, PageTableEntry>, e: nat)
    requires l.Ok() && e < |pages| && Extends(first, m) && AddedFor(heap, first, m)
    requires RunEntered(l, pages, heap, m, m', e, l.PagesPerObject())
    ensures Extends(first, m') && AddedFor(heap, first, m')
  {
    forall n: nat
      ensures Kept(first, m', n) && AddedAt(heap, first, m', n)
    {
      assert Kept(first, m, n) && Kept(m, m', n) && AddedAt(heap, first, m, n);
      assert FromRun(l, pages, m, m', e, l.PagesPerObject(), n);
      if n in m' && n !in m {
        assert Mapped(l, pages, heap, m', e, n - pages[e] / l.pageSize);
      }
    }
  }

  lemma DoneOnly(l: Layout, pages: seq<nat>, heap: nat, m: map<nat, PageTableEntry>, m': map<nat, PageTableEntry>,
                 e: nat)
    requires l.Ok() && e < |pages| && OnlyRuns(l, pages, heap, m, e)
    requires RunEntered(l, pages, heap, m, m', e, l.PagesPerObject())
    ensures OnlyRuns(l, pages, heap, m', e + 1)
  {
    forall k: nat | Named(heap, m', k)
      ensures InRuns(l, pages, e + 1, k)
    {
      assert Kept(m, m', k) && FromRun(l, pages, m, m', e, l.PagesPerObject(), k);
      if k in m {
        assert Named(heap, m, k);
        assert InRuns(l, pages, e, k);
      }
    }
  }

  /** Entries for another heap leave what a heap's runs are entered as. */
  lemma CoversStay(l: Layout, pages: seq<nat>, heap: nat, m: map<nat, PageTableEntry>, m': map<nat, PageTableEntry>,
                   other: nat)
    requires l.Ok() && heap != other && Extends(m, m') && AddedFor(other, m, m')
    requires Covers(l, pages, heap, m, |pages|) && OnlyRuns(l, pages, heap, m, |pages|)
    ensures Covers(l, pages, heap, m', |pages|) && OnlyRuns(l, pages, heap, m', |pages|)
  {
    forall e, p | 0 <= e < |pages| && 0 <= p < l.PagesPerObject()
      ensures Mapped(l, pages, heap, m', e, p)
    {
      assert Mapped(l, pages, heap, m, e, p) && Kept(m, m', RunPage(l, pages, e, p));
    }
    forall k: nat | Named(heap, m', k)
      ensures InRuns(l, pages, |pages|, k)
    {
      assert Kept(m, m', k) && AddedAt(other, m, m', k);
      assert Named(heap, m, k);
    }
  }

  /** The first n runs begin where the table of starts says. */
  predicate Starts(starts: seq<nat>, pages: seq<nat>, n: nat) {
    n <= |starts| && n <= |pages| && forall e :: 0 <= e < n ==> starts[e] == pages[e]
  }

  /** The runs of an activated heap: where each begins is known, and the table names the heap for their pages alone. */
  ghost predicate Open(l: Layout, pages: seq<nat>, heap: nat, m: map<nat, PageTableEntry>, starts: seq<nat>)
    requires l.Ok()
  {
    && |pages| == Runs(l) && PagesOk(l, pages) && Starts(starts, pages, |pages|)
    && Covers(l, pages, heap, m, |pages|) && OnlyRuns(l, pages, heap, m, |pages|)
  }

  lemma NoneEntered(l: Layout, pages: seq<nat>, heap: nat, m: map<nat, PageTableEntry>)
    requires l.Ok() && NotYetMapped(l, pages, 0, m)
    ensures RunsEntered(l, pages, heap, m, m, 0)
  {
  }

  lemma AllEntered(l: Layout, pages: seq<nat>, heap: nat, m: map<nat, PageTableEntry>, m': map<nat, PageTableEntry>,
                   starts: seq<nat>)
    requires l.Ok() && |pages| == Runs(l) && PagesOk(l, pages) && Starts(starts, pages, |pages|)
    requires NotNamed(heap, m) && RunsEntered(l, pages, heap, m, m', |pages|)
    ensures Open(l, pages, heap, m', starts) && Extends(m, m') && AddedFor(heap, m, m')
  {
  }

  lemma OpenStays(l: Layout, pages: seq<nat>, heap: nat, m: map<nat, PageTableEntry>, m': map<nat, PageTableEntry>,
                  starts: seq<nat>, other: nat)
    requires l.Ok() && heap != other && Extends(m, m') && AddedFor(other, m, m') && Open(l, pages, heap, m, starts)
    ensures Open(l, pages, heap, m', starts)
  {
    CoversStay(l, pages, heap, m, m', other);
  }

  lemma NotNamedStays(heap: nat, m: map<nat, PageTableEntry>, m': map<nat, PageTableEntry>, other: nat)
    requires heap != other && AddedFor(other, m, m') && Extends(m, m') && NotNamed(heap, m)
    ensures NotNamed(heap, m')
  {
    forall n: nat
      ensures !Named(heap, m', n)
    {
      assert Kept(m, m', n) && AddedAt(other, m, m', n) && !Named(heap, m, n);
    }
  }

  /** The page number of a page inside a page-aligned run. */
  lemma WholePageNumber(l: Layout, pages: seq<nat>, e: nat, p: nat)
    requires l.Ok() && e < |pages| && PagesOk(l, pages)
    ensures (pages[e] + p * l.pageSize) / l.pageSize == RunPage(l, pages, e, p)
  {
    SplitIndex(pages[e], l.pageSize);
    Distribute(pages[e] / l.pageSize, p, l.pageSize);
    DivModUnique(pages[e] + p * l.pageSize, l.pageSize, pages[e] / l.pageSize + p, 0);
  }

  /** How often the loop of internalActivate runs. */
  function Runs(l: Layout): nat
    requires l.Ok()
  {
    (l.numObjects + l.ObjectsPerPage() - 1) / l.ObjectsPerPage()
  }

  lemma RunsExact(l: Layout, e: nat)
    requires l.Ok()
    ensures e * l.ObjectsPerPage() < l.numObjects <==> e < Runs(l)
    ensures Runs(l) <= l.NumEntries()
  {
    var opp, n := l.ObjectsPerPage(), Runs(l);
    RoundedUp(l.numObjects, opp);
    SplitIndex(l.numObjects + opp - 1, opp);
    if e < n { Distribute(e, 1, opp); MulMonotone(e + 1, n, opp); } else { MulMonotone(n, e, opp); }
    if n > 0 {
      Distribute(n - 1, 1, opp);
      DivModUnique((n - 1) * opp, opp, n - 1, 0);
      EntriesSuffice(l, (n - 1) * opp);
    }
  }

  /** The loop of internalActivate is at run e with this object index. */
  predicate StartOf(l: Layout, e: nat, objectIndex: nat)
    requires l.Ok()
  {
    objectIndex == e * l.ObjectsPerPage() && (objectIndex < l.numObjects <==> e < Runs(l))
  }

  lemma FirstRun(l: Layout)
    requires l.Ok()
    ensures StartOf(l, 0, 0) && Runs(l) <= l.NumEntries()
  {
    RunsExact(l, 0);
  }

  lemma NextRun(l: Layout, e: nat, objectIndex: nat)
    requires l.Ok() && StartOf(l, e, objectIndex)
    ensures StartOf(l, e + 1, objectIndex + l.ObjectsPerPage())
  {
    RunsExact(l, e + 1);
    Distribute(e, 1, l.ObjectsPerPage());
  }

  /** The entry for an index: that of the first object of its page. */
  function RunOfIndex(l: Layout, i: nat): int
    requires l.Ok()
  {
    (i - i % l.ObjectsPerPage()) / l.ObjectsPerPage()
  }

  lemma IndexHasRun(l: Layout, i: nat)
    requires l.Ok() && i < l.numObjects
    ensures i / l.ObjectsPerPage() < Runs(l)
    ensures RunOfIndex(l, i) == i / l.ObjectsPerPage()
  {
    var opp := l.ObjectsPerPage();
    SplitIndex(i, opp);
    RunsExact(l, i / opp);
    DivModUnique(i - i % opp, opp, i / opp, 0);
  }
}
