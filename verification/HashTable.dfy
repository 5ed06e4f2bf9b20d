/**
 * The open-addressing hash table behind DieHarder's page table
 * (src/include/util/dynamichashtable.h).  The size is a power of two, so that
 * the source's "& mask" is written as a remainder.
 */
module HashTable {
  import opened PowersOfTwo

  datatype Option<T> = None | Some(value: T)

  /** An entry of the page table; its hash code is its page number. */
  datatype PageTableEntry = PageTableEntry(pageNumber: nat, heap: nat, objectIndex: nat)

  type Slots = seq<Option<PageTableEntry>>

  // ---------------------------------------------------------------------
  // Tables as sequences
  // ---------------------------------------------------------------------

  /** How many steps a probe that begins at b takes to reach i. */
  function Steps(n: nat, b: nat, i: nat): int {
    if i >= b then i - b else i + n - b
  }

  function Home(n: nat, key: nat): (b: nat)
    requires n > 0
    ensures b < n
  {
    key % n
  }

  predicate Occupied(t: Slots, i: nat) {
    i < |t| && t[i].Some?
  }

  /** Every slot on the way from an entry's home to the entry is occupied. */
  ghost predicate Probed(t: Slots) {
    forall i: nat, j: nat {:trigger Skipped(t, i, j)} :: Occupied(t, j) && Skipped(t, i, j) ==> Occupied(t, i)
  }

  /** A probe for the key at slot j passes slot i before it gets to j. */
  predicate Skipped(t: Slots, i: nat, j: nat)
    requires Occupied(t, j)
  {
    i < |t| && var b := Home(|t|, t[j].value.pageNumber); Steps(|t|, b, i) < Steps(|t|, b, j)
  }

  /** The entries in the table; an entry that was inserted twice is there twice. */
  function Entries(t: Slots): multiset<PageTableEntry> {
    if t == [] then multiset{}
    else
      var n := |t| - 1;
      Entries(t[..n]) + if t[n].Some? then multiset{t[n].value} else multiset{}
  }

  lemma {:induction false} EntriesAfter(t: Slots, i: nat, s: PageTableEntry)
    requires i < |t| && !Occupied(t, i)
    ensures Entries(t[i := Some(s)]) == Entries(t) + multiset{s}
  {
    var n := |t| - 1;
    if i == n {
      assert t[i := Some(s)][..n] == t[..n];
    } else {
      assert t[i := Some(s)][..n] == t[..n][i := Some(s)];
      EntriesAfter(t[..n], i, s);
      var front, last := Entries(t[..n]), if t[n].Some? then multiset{t[n].value} else multiset{};
      assert (front + multiset{s}) + last == (front + last) + multiset{s};
    }
  }

  /** One of the slots holds e. */
  ghost predicate Stored(t: Slots, e: PageTableEntry) {
    exists i: nat :: Occupied(t, i) && t[i].value == e
  }

  lemma {:induction false} EntriesAreStored(t: Slots, e: PageTableEntry)
    ensures e in Entries(t) <==> Stored(t, e)
  {
    if t != [] {
      var n := |t| - 1;
      EntriesAreStored(t[..n], e);
      if Stored(t[..n], e) {
        var i: nat :| Occupied(t[..n], i) && t[..n][i].value == e;
        assert Occupied(t, i);
      }
      if Stored(t, e) {
        var i: nat :| Occupied(t, i) && t[i].value == e;
        assert i < n ==> Occupied(t[..n], i);
      }
      assert t[n] == Some(e) ==> Occupied(t, n);
    }
  }

  ghost function OccupiedSlots(t: Slots): set<nat> {
    set i: nat | i < |t| && Occupied(t, i)
  }

  lemma {:induction false} OccupiedCount(t: Slots)
    ensures |OccupiedSlots(t)| == |Entries(t)|
  {
    if t == [] {
      assert OccupiedSlots(t) == {};
    } else {
      var n := |t| - 1;
      OccupiedCount(t[..n]);
      forall i: nat
        ensures i in OccupiedSlots(t) <==> i in OccupiedSlots(t[..n]) || (i == n && Occupied(t, n))
      {
        assert i < n ==> (Occupied(t, i) <==> Occupied(t[..n], i));
      }
      assert OccupiedSlots(t) == OccupiedSlots(t[..n]) + if Occupied(t, n) then {n} else {};
    }
  }

  /** The probing invariant, and what the table holds. */
  ghost predicate TableOk(t: Slots, c: multiset<PageTableEntry>) {
    Probed(t) && Entries(t) == c
  }

  /** A lookup finds an entry with the key if there is one. */
  ghost predicate Found(c: multiset<PageTableEntry>, key: nat, r: Option<PageTableEntry>) {
    match r
    case Some(e) => e in c && e.pageNumber == key
    case None => Absent(c, key)
  }

  ghost predicate Absent(c: multiset<PageTableEntry>, key: nat) {
    forall e | e in c :: e.pageNumber != key
  }

  /** The entries are those of the map, which takes keys that were inserted with one value each. */
  ghost predicate Represents(m: map<nat, PageTableEntry>, c: multiset<PageTableEntry>) {
    && (forall e | e in c :: e.pageNumber in m && m[e.pageNumber] == e)
    && (forall k | k in m :: m[k] in c && m[k].pageNumber == k)
  }

  /** A lookup in a table that represents a map is a lookup in the map. */
  lemma FoundIsMapped(m: map<nat, PageTableEntry>, c: multiset<PageTableEntry>, key: nat, r: Option<PageTableEntry>)
    requires Represents(m, c) && Found(c, key, r)
    ensures r == if key in m then Some(m[key]) else None
  {
    if key in m { assert m[key] in c; }
  }

  /** Inserting a new key extends the map. */
  lemma MapExtends(m: map<nat, PageTableEntry>, c: multiset<PageTableEntry>, s: PageTableEntry)
    requires Represents(m, c) && s.pageNumber !in m
    ensures Represents(m[s.pageNumber := s], c + multiset{s})
  {
    var m', c' := m[s.pageNumber := s], c + multiset{s};
    forall e | e in c'
      ensures e.pageNumber in m' && m'[e.pageNumber] == e
    {
      assert e == s || e in c;
    }
  }

  /** A probe that begins at b finds every slot occupied before it gets to i. */
  ghost predicate Passed(t: Slots, b: nat, i: nat) {
    forall x: nat :: x < |t| && Steps(|t|, b, x) < Steps(|t|, b, i) ==> Occupied(t, x)
  }

  /** No slot before i on that probe holds the key. */
  ghost predicate Unseen(t: Slots, b: nat, i: nat, key: nat) {
    forall x: nat :: x < |t| && Steps(|t|, b, x) < Steps(|t|, b, i) && Occupied(t, x) ==> t[x].value.pageNumber != key
  }

  function Range(n: nat): (r: set<nat>)
    ensures |r| == n && forall i: nat :: i in r <==> i < n
  {
    if n == 0 then {} else Range(n - 1) + {n - 1}
  }

  lemma SubsetSize<T>(a: set<T>, b: set<T>)
    requires a <= b
    ensures |a| <= |b|
  {
    assert b == a + (b - a);
  }

  /** While the table is not full but for one slot, a probe cannot come to its end. */
  lemma ProbeEnds(t: Slots, b: nat, lim: nat)
    requires b < |t| && lim < |t| && Steps(|t|, b, lim) == |t| - 1
    requires |OccupiedSlots(t)| < |t| - 1
    ensures !Passed(t, b, lim)
  {
    if Passed(t, b, lim) {
      var all := Range(|t|);
      forall i | i in all - {lim}
        ensures Occupied(t, i)
      {
        assert Steps(|t|, b, i) != Steps(|t|, b, lim);
      }
      SubsetSize(all - {lim}, OccupiedSlots(t));
    }
  }

  /** (i + 1) & mask */
  function Next(n: nat, i: nat): (r: nat)
    requires i < n
    ensures r == if i + 1 < n then i + 1 else 0
  {
    DivModUnique(i + 1, n, if i + 1 < n then 0 else 1, if i + 1 < n then i + 1 else 0);
    (i + 1) % n
  }

  /** (begin - 1 + size) & mask, the one slot a probe never looks at. */
  function Last(n: nat, b: nat): (r: nat)
    requires b < n
    ensures r < n && Steps(n, b, r) == n - 1
  {
    DivModUnique(b + n - 1, n, if b == 0 then 0 else 1, if b == 0 then n - 1 else b - 1);
    (b + n - 1) % n
  }

  lemma NextStep(t: Slots, b: nat, i: nat)
    requires b < |t| && i < |t| && Steps(|t|, b, i) < |t| - 1
    requires Passed(t, b, i) && Occupied(t, i)
    ensures Steps(|t|, b, Next(|t|, i)) == Steps(|t|, b, i) + 1
    ensures Passed(t, b, Next(|t|, i))
    ensures forall key | Unseen(t, b, i, key) && t[i].value.pageNumber != key :: Unseen(t, b, Next(|t|, i), key)
  {
    assert forall x: nat :: x < |t| && Steps(|t|, b, x) == Steps(|t|, b, i) ==> x == i;
  }

  lemma FillProbed(t: Slots, i: nat, s: PageTableEntry)
    requires Probed(t) && i < |t| && !Occupied(t, i) && Passed(t, Home(|t|, s.pageNumber), i)
    ensures Probed(t[i := Some(s)])
  {
    var t' := t[i := Some(s)];
    forall x: nat, j: nat | Occupied(t', j) && Skipped(t', x, j)
      ensures Occupied(t', x)
    {
      if j == i {
        assert Occupied(t, x);
      } else {
        assert Occupied(t, j) && Skipped(t, x, j);
      }
    }
  }

  /** Filling the first free slot of a probe adds exactly that entry. */
  lemma FillFree(t: Slots, c: multiset<PageTableEntry>, i: nat, s: PageTableEntry)
    requires TableOk(t, c) && i < |t| && !Occupied(t, i) && Passed(t, Home(|t|, s.pageNumber), i)
    ensures TableOk(t[i := Some(s)], c + multiset{s})
  {
    FillProbed(t, i, s);
    EntriesAfter(t, i, s);
  }

  /** A probe that meets a free slot before the key has not missed it. */
  lemma FreeMeansAbsent(t: Slots, c: multiset<PageTableEntry>, key: nat, i: nat)
    requires TableOk(t, c) && i < |t| && !Occupied(t, i)
    requires Unseen(t, Home(|t|, key), i, key)
    ensures Absent(c, key)
  {
    forall j: nat | Occupied(t, j)
      ensures t[j].value.pageNumber != key
    {
      assert Steps(|t|, Home(|t|, key), j) == Steps(|t|, Home(|t|, key), i) ==> j == i;
      assert !Skipped(t, i, j);
    }
    forall e | e in c
      ensures e.pageNumber != key
    {
      EntriesAreStored(t, e);
    }
  }

  lemma {:induction false} EmptyTable(t: Slots)
    requires forall i :: 0 <= i < |t| ==> t[i] == None
    ensures TableOk(t, multiset{})
  {
    if t != [] { EmptyTable(t[..|t| - 1]); }
  }

  // ---------------------------------------------------------------------
  // The table in place
  // ---------------------------------------------------------------------

  const LOAD_FACTOR_RECIPROCAL: nat := 8
  const EXPANSION_FACTOR: nat := 2

  ghost predicate PowerOfTwo(n: nat) {
    exists k: nat :: n == Pow2(k)
  }

  class DynamicHashTable {
    var size: nat
    var entries: array<Option<PageTableEntry>>
    var numElements: nat

    /** The entries that were inserted. */
    ghost var contents: multiset<PageTableEntry>

    ghost predicate Valid()
      reads this, entries
    {
      && entries.Length == size && size >= LOAD_FACTOR_RECIPROCAL && PowerOfTwo(size)
      && TableOk(entries[..], contents)
      && numElements == |contents| <= size / LOAD_FACTOR_RECIPROCAL
    }

    constructor (initialSize: nat)
      requires initialSize >= LOAD_FACTOR_RECIPROCAL && PowerOfTwo(initialSize)
      ensures Valid() && contents == multiset{} && fresh(entries)
    {
      size := initialSize;
      entries := new Option<PageTableEntry>[initialSize](_ => None);
      numElements := 0;
      contents := multiset{};
      new;
      EmptyTable(entries[..]);
    }

    /** An entry whose page number is key, when one was inserted: the one, when only one was. */
    method Get(key: nat) returns (r: Option<PageTableEntry>)
      requires Valid()
      ensures Found(contents, key, r)
      ensures forall m :: Represents(m, contents) ==> r == if key in m then Some(m[key]) else None
    {
      r := Find(key);
      forall m | Represents(m, contents)
        ensures r == if key in m then Some(m[key]) else None
      {
        FoundIsMapped(m, contents, key, r);
      }
    }

    /** Adds an entry; the table doubles exactly when the load would otherwise exceed its bound. */
    method Insert(s: PageTableEntry)
      requires Valid()
      modifies this, entries
      ensures Valid() && contents == old(contents) + multiset{s}
      ensures size == if LOAD_FACTOR_RECIPROCAL * (|old(contents)| + 1) > old(size) then 2 * old(size) else old(size)
      ensures entries == old(entries) || fresh(entries)
    {
      LoadTest(numElements + 1, size);
      if numElements + 1 > size / LOAD_FACTOR_RECIPROCAL {
        Grow();
      }
      InsertOne(s);
      numElements := numElements + 1;
    }

    /** Puts s into the first free slot of its probe; the assertion that one is found never fails. */
    method InsertOne(s: PageTableEntry)
      requires entries.Length == size > 0 && TableOk(entries[..], contents) && |contents| < size - 1
      modifies entries, `contents
      ensures TableOk(entries[..], contents) && contents == old(contents) + multiset{s}
    {
      ghost var t := entries[..];
      var begin := Home(size, s.pageNumber);
      var lim := Last(size, begin);
      var i: nat := begin;
      while i != lim
        invariant i < size && Passed(t, begin, i)
        invariant entries[..] == t && contents == old(contents)
        decreases size - 1 - Steps(size, begin, i)
      {
        assert entries[i] == t[i];
        if entries[i].None? {
          FillFree(t, contents, i, s);
          Put(i, s);
          return;
        }
        NextStep(t, begin, i);
        i := Next(size, i);
      }
      OccupiedCount(t);
      ProbeEnds(t, begin, lim);
      assert false;
    }

    method Put(i: nat, s: PageTableEntry)
      requires i < entries.Length
      modifies entries, `contents
      ensures entries[..] == old(entries[..])[i := Some(s)] && contents == old(contents) + multiset{s}
    {
      entries[i] := Some(s);
      contents := contents + multiset{s};
    }

    /** Doubles the table and puts every entry into its place in the new one. */
    method Grow()
      requires Valid()
      modifies this
      ensures size == old(size) * EXPANSION_FACTOR && fresh(entries)
      ensures Valid() && contents == old(contents) && numElements == old(numElements)
    {
      var oldEntries := entries;
      ghost var c := contents;
      GrownSize(size);
      size := size * EXPANSION_FACTOR;
      entries := new Option<PageTableEntry>[size](_ => None);
      contents := multiset{};
      EmptyTable(entries[..]);
      var ct := Rehash(oldEntries, c);
      assert ct == numElements;
    }

    /** The loop of Grow: inserts what the old table holds. */
    method Rehash(oldEntries: array<Option<PageTableEntry>>, ghost c: multiset<PageTableEntry>) returns (ct: nat)
      requires oldEntries != entries && TableOk(oldEntries[..], c)
      requires entries.Length == size > 0 && contents == multiset{} && TableOk(entries[..], contents) && |c| < size - 1
      modifies entries, `contents
      ensures TableOk(entries[..], contents) && contents == c && ct == |c|
    {
      ghost var t := oldEntries[..];
      ct := 0;
      for i := 0 to oldEntries.Length
        invariant oldEntries[..] == t && TableOk(entries[..], contents) && ct == |contents|
        invariant contents == Entries(t[..i])
      {
        EntriesGrow(t, i);
        if oldEntries[i].Some? {
          ct := ct + 1;
          InsertOne(oldEntries[i].value);
        }
      }
      assert t[..oldEntries.Length] == t;
    }

    /** An entry for key; the abort behind the loop is never reached. */
    method Find(key: nat) returns (r: Option<PageTableEntry>)
      requires Valid()
      ensures Found(contents, key, r)
    {
      ghost var t := entries[..];
      var begin := Home(size, key);
      var lim := Last(size, begin);
      var i: nat := begin;
      while i != lim
        invariant i < size && Passed(t, begin, i) && Unseen(t, begin, i, key)
        decreases size - 1 - Steps(size, begin, i)
      {
        if entries[i].Some? {
          assert Occupied(t, i);
          if entries[i].value.pageNumber == key {
            EntriesAreStored(t, t[i].value);
            return entries[i];
          }
        } else {
          FreeMeansAbsent(t, contents, key, i);
          return None;
        }
        NextStep(t, begin, i);
        i := Next(size, i);
      }
      OccupiedCount(t);
      ProbeEnds(t, begin, lim);
      assert false;
    }
  }

  lemma LoadTest(elements: nat, size: nat)
    ensures elements > size / LOAD_FACTOR_RECIPROCAL <==> LOAD_FACTOR_RECIPROCAL * elements > size
  {
    assert size == size / 8 * 8 + size % 8;
  }

  lemma GrownSize(n: nat)
    requires PowerOfTwo(n)
    ensures PowerOfTwo(n * EXPANSION_FACTOR)
  {
    var k: nat :| n == Pow2(k);
    assert n * EXPANSION_FACTOR == Pow2(k + 1);
  }

  /** The entries of the first i slots grow with i, up to all of them. */
  lemma EntriesGrow(t: Slots, i: nat)
    requires i < |t|
    ensures Entries(t[..i + 1]) == Entries(t[..i]) + if t[i].Some? then multiset{t[i].value} else multiset{}
    ensures |Entries(t[..i])| <= |Entries(t)|
  {
    assert t[..i + 1][..i] == t[..i];
    PrefixEntries(t, i);
  }

  lemma {:induction false} PrefixEntries(t: Slots, i: nat)
    requires i <= |t|
    ensures |Entries(t[..i])| <= |Entries(t)|
  {
    if i == |t| {
      assert t[..i] == t;
    } else {
      PrefixEntries(t[..|t| - 1], i);
      assert t[..|t| - 1][..i] == t[..i];
    }
  }
}
