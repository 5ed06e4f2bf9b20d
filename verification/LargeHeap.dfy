/**
 * The heap for large objects (src/include/largeheap.h): every page of an
 * object has an entry with the bytes that remain from there.  malloc maps
 * memory before it takes the lock, and free unmaps before it clears the
 * entries, so another thread may be given a range whose entries still stand.
 */
module LargeHeaps {
  import HeapSpec
  import opened PowersOfTwo

  // ---------------------------------------------------------------------
  // The table of remaining sizes
  // ---------------------------------------------------------------------

  function Iterations(sz: nat, page: nat): nat
    requires page > 0
  {
    (sz + page - 1) / page
  }

  function Rest(sz: nat, page: nat): nat {
    if sz <= page then 0 else sz - page
  }

  function SetRange(table: map<nat, nat>, ptr: nat, sz: nat, page: nat): map<nat, nat>
    requires page > 0
    decreases sz
  {
    if sz == 0 then table else SetRange(table[ptr := sz], ptr + page, Rest(sz, page), page)
  }

  function ClearRange(table: map<nat, nat>, ptr: nat, sz: nat, page: nat): map<nat, nat>
    requires page > 0
    decreases sz
  {
    if sz == 0 then table else ClearRange(table - {ptr}, ptr + page, Rest(sz, page), page)
  }

  /** Address k is the start of a page of the object of sz bytes at base. */
  predicate PageOf(base: nat, sz: nat, k: nat, page: nat)
    requires page > 0
  {
    base <= k < base + sz && (k - base) % page == 0
  }

  lemma NextPage(base: nat, sz: nat, k: nat, page: nat)
    requires page > 0 && sz > 0
    ensures PageOf(base, sz, k, page) <==> k == base || PageOf(base + page, Rest(sz, page), k, page)
  {
    if k >= base + page {
      NextRemainder(k - base - page, page);
    } else if base <= k {
      DivModUnique(k - base, page, 0, k - base);
    }
  }

  lemma {:induction false} SetRangeEntries(table: map<nat, nat>, ptr: nat, sz: nat, page: nat)
    requires page > 0
    ensures var t := SetRange(table, ptr, sz, page);
            forall k: nat :: (k in t <==> k in table || PageOf(ptr, sz, k, page))
                        && (k in t ==> t[k] == if PageOf(ptr, sz, k, page) then ptr + sz - k else table[k])
    decreases sz
  {
    if sz > 0 {
      SetRangeEntries(table[ptr := sz], ptr + page, Rest(sz, page), page);
      forall k: nat
        ensures PageOf(ptr, sz, k, page) <==> k == ptr || PageOf(ptr + page, Rest(sz, page), k, page)
      {
        NextPage(ptr, sz, k, page);
      }
    }
  }

  lemma {:induction false} ClearRangeEntries(table: map<nat, nat>, ptr: nat, sz: nat, page: nat)
    requires page > 0
    ensures var t := ClearRange(table, ptr, sz, page);
            forall k: nat :: (k in t <==> k in table && !PageOf(ptr, sz, k, page)) && (k in t ==> t[k] == table[k])
    decreases sz
  {
    if sz > 0 {
      ClearRangeEntries(table - {ptr}, ptr + page, Rest(sz, page), page);
      var t := ClearRange(table, ptr, sz, page);
      forall k: nat
        ensures (k in t <==> k in table && !PageOf(ptr, sz, k, page)) && (k in t ==> t[k] == table[k])
      {
        NextPage(ptr, sz, k, page);
        assert k in t <==> k in table - {ptr} && !PageOf(ptr + page, Rest(sz, page), k, page);
      }
    }
  }

  lemma FewerIterations(sz: nat, page: nat)
    requires page > 0
    ensures sz == 0 ==> Iterations(sz, page) == 0
    ensures sz > 0 ==> Iterations(sz, page) == Iterations(Rest(sz, page), page) + 1
  {
    if sz == 0 {
      DivModUnique(page - 1, page, 0, page - 1);
    } else if sz <= page {
      DivModUnique(sz + page - 1, page, 1, sz - 1);
      DivModUnique(page - 1, page, 0, page - 1);
    } else {
      var n := sz - 1;
      assert n == (n / page) * page + n % page;
      assert (n / page + 1) * page == (n / page) * page + page;
      DivModUnique(n + page, page, n / page + 1, n % page);
    }
  }

  class LargeHeap {
    const page: nat
    var objectSize: map<nat, nat>

    constructor (page: nat)
      requires page > 0
      ensures this.page == page && objectSize == map[]
    {
      this.page := page;
      objectSize := map[];
    }

    /** ptr is what map returned for sz bytes. */
    method Malloc(ptr: nat, sz: nat)
      requires page > 0
      modifies this
      ensures objectSize == SetRange(old(objectSize), ptr, sz, page)
    {
      Set(ptr, sz);
    }

    /** unmapped tells which range was handed back: all that remains of the object from ptr on, or nothing. */
    method Free(ptr: nat) returns (freed: bool, unmapped: nat)
      requires page > 0
      modifies this
      ensures unmapped == Lookup(old(objectSize), ptr) && (freed <==> unmapped > 0)
      ensures objectSize == ClearRange(old(objectSize), ptr, unmapped, page)
    {
      var sz := Get(ptr);
      if sz > 0 {
        unmapped := sz;
        Clear(ptr);
        freed := true;
      } else {
        freed, unmapped := false, 0;
      }
    }

    /** Zero for an address without an entry; the lookup never adds one. */
    method Get(ptr: nat) returns (sz: nat)
      ensures sz == Lookup(objectSize, ptr)
    {
      sz := if ptr in objectSize then objectSize[ptr] else 0;
    }

    method Set(ptr: nat, sz: nat)
      requires page > 0
      modifies this
      ensures objectSize == SetRange(old(objectSize), ptr, sz, page)
    {
      var currSize: int := sz;
      var iterations := Iterations(sz, page);
      var i := 0;
      FewerIterations(sz, page);
      while i < iterations
        invariant i <= iterations && iterations - i == Iterations(if currSize > 0 then currSize else 0, page)
        invariant SetRange(objectSize, ptr + i * page, if currSize > 0 then currSize else 0, page)
                  == SetRange(old(objectSize), ptr, sz, page)
      {
        FewerIterations(if currSize > 0 then currSize else 0, page);
        FewerIterations(Rest(currSize, page), page);
        Distribute(i, 1, page);
        objectSize := objectSize[ptr + i * page := currSize];
        currSize := currSize - page;
        i := i + 1;
      }
      FewerIterations(if currSize > 0 then currSize else 0, page);
    }

    /** Removes the entries of the object whose remaining size at ptr is in the table. */
    method Clear(ptr: nat)
      requires page > 0
      modifies this
      ensures objectSize == ClearRange(old(objectSize), ptr, Lookup(old(objectSize), ptr), page)
    {
      var sz := Get(ptr);
      var iterations := Iterations(sz, page);
      ghost var left := sz;
      var i := 0;
      FewerIterations(sz, page);
      while i < iterations
        invariant i <= iterations && iterations - i == Iterations(left, page)
        invariant ClearRange(objectSize, ptr + i * page, left, page) == ClearRange(old(objectSize), ptr, sz, page)
      {
        FewerIterations(left, page);
        FewerIterations(Rest(left, page), page);
        Distribute(i, 1, page);
        objectSize := objectSize - {ptr + i * page};
        left := Rest(left, page);
        i := i + 1;
      }
      FewerIterations(left, page);
    }
  }

  function Lookup(table: map<nat, nat>, ptr: nat): nat {
    if ptr in table then table[ptr] else 0
  }

  // ---------------------------------------------------------------------
  // Many threads
  // ---------------------------------------------------------------------

  /** Mapped: malloc has its memory but not yet the lock.  Clearing: free holds the lock and has unmapped. */
  datatype Pc = Idle | Mapped(ptr: nat, sz: nat) | Clearing(ptr: nat)

  /** The mutex, with the object its holder is about to clear. */
  datatype Lock = Unlocked | HeldToClear(ptr: nat)

  /**
   * mapped is what the operating system has handed out; registered holds the
   * objects between the end of their malloc and the end of their free.
   */
  datatype State = State(table: map<nat, nat>, lock: Lock, pcs: seq<Pc>,
                         mapped: map<nat, nat>, registered: map<nat, nat>)

  datatype Step =
    | Map(thread: nat, ptr: nat, sz: nat)
    | Register(thread: nat)
    | BeginFree(thread: nat, ptr: nat)
    | FinishFree(thread: nat)

  /** The operating system answers with page-aligned memory that nobody else has. */
  ghost predicate FreshMemory(page: nat, mapped: map<nat, nat>, ptr: nat, sz: nat)
    requires page > 0
  {
    && sz > 0 && ptr > 0 && ptr % page == 0
    && forall b | b in mapped :: HeapSpec.Apart(b, mapped[b], ptr, sz)
  }

  /** free is for the address malloc returned, or for one the table does not know. */
  ghost predicate Enabled(page: nat, s: State, step: Step)
    requires page > 0
  {
    step.thread < |s.pcs| &&
    var pc := s.pcs[step.thread];
    match step
    case Map(_, ptr, sz) => pc.Idle? && FreshMemory(page, s.mapped, ptr, sz)
    case Register(_) => pc.Mapped? && s.lock.Unlocked?
    case BeginFree(_, ptr) => pc.Idle? && s.lock.Unlocked? && (ptr in s.registered || ptr !in s.table)
    case FinishFree(_) => pc.Clearing?
  }

  ghost function Apply(page: nat, s: State, step: Step): State
    requires page > 0 && Enabled(page, s, step)
  {
    var t := step.thread;
    var pc := s.pcs[t];
    match step
    case Map(_, ptr, sz) => s.(mapped := s.mapped[ptr := sz], pcs := s.pcs[t := Mapped(ptr, sz)])
    case Register(_) =>
      s.(table := SetRange(s.table, pc.ptr, pc.sz, page), registered := s.registered[pc.ptr := pc.sz],
         pcs := s.pcs[t := Idle])
    case BeginFree(_, ptr) =>
      if Lookup(s.table, ptr) > 0
      then Unmapped(s, t, ptr) else s
    case FinishFree(_) =>
      s.(table := ClearRange(s.table, pc.ptr, Lookup(s.table, pc.ptr), page),
         registered := s.registered - {pc.ptr}, lock := Unlocked, pcs := s.pcs[t := Idle])
  }

  predicate Init(s: State) {
    && s.table == map[] && s.lock == Unlocked && s.mapped == map[] && s.registered == map[]
    && forall t :: 0 <= t < |s.pcs| ==> s.pcs[t] == Idle
  }

  ghost predicate IsRun(page: nat, run: seq<State>, steps: seq<Step>)
    requires page > 0
  {
    && |run| == |steps| + 1 && Init(run[0])
    && forall i :: 0 <= i < |steps| ==> Enabled(page, run[i], steps[i]) && run[i + 1] == Apply(page, run[i], steps[i])
  }

  /** The entries are exactly those of the given objects: base + i * page holds size - i * page. */
  ghost predicate Describes(page: nat, table: map<nat, nat>, objects: map<nat, nat>)
    requires page > 0
  {
    && (forall k | k in table :: exists b :: HasPage(objects, b, k, page))
    && (forall b, k | HasPage(objects, b, k, page) :: k in table && table[k] == b + objects[b] - k)
  }

  predicate HasPage(objects: map<nat, nat>, b: nat, k: nat, page: nat)
    requires page > 0
  {
    b in objects && PageOf(b, objects[b], k, page)
  }

  /** Objects do not overlap. */
  ghost predicate Disjoint(objects: map<nat, nat>) {
    && (forall b | b in objects :: objects[b] > 0)
    && (forall b, c | b in objects && c in objects && b != c :: HeapSpec.Apart(b, objects[b], c, objects[c]))
  }

  /** A thread between map and the lock owns memory that is not yet an object, or a leftover of one being cleared. */
  ghost predicate ThreadOk(s: State, t: nat)
    requires t < |s.pcs|
  {
    var pc := s.pcs[t];
    && (pc.Mapped? ==>
          && pc.ptr in s.mapped && s.mapped[pc.ptr] == pc.sz
          && (pc.ptr in s.registered ==> s.lock == HeldToClear(pc.ptr))
          && forall u | 0 <= u < |s.pcs| && u != t && s.pcs[u].Mapped? :: s.pcs[u].ptr != pc.ptr)
    && (pc.Clearing? ==>
          && s.lock == HeldToClear(pc.ptr) && pc.ptr in s.registered
          && forall u | 0 <= u < |s.pcs| && u != t :: !s.pcs[u].Clearing?)
  }

  ghost predicate Inv(page: nat, s: State)
    requires page > 0
  {
    && Describes(page, s.table, s.registered)
    && Disjoint(s.mapped) && Disjoint(s.registered)
    && (forall b | b in s.registered :: s.lock == HeldToClear(b) || (b in s.mapped && s.mapped[b] == s.registered[b]))
    && (s.lock.HeldToClear? ==> exists t :: 0 <= t < |s.pcs| && s.pcs[t].Clearing?)
    && forall t :: 0 <= t < |s.pcs| ==> ThreadOk(s, t)
  }

  lemma BaseIsPage(objects: map<nat, nat>, b: nat, page: nat)
    requires page > 0 && b in objects && objects[b] > 0
    ensures HasPage(objects, b, b, page)
  {
    DivModUnique(0, page, 0, 0);
  }

  lemma OneObjectPerPage(objects: map<nat, nat>, b: nat, c: nat, k: nat, page: nat)
    requires page > 0 && Disjoint(objects) && HasPage(objects, b, k, page) && HasPage(objects, c, k, page)
    ensures b == c
  {
    assert b != c ==> HeapSpec.Apart(b, objects[b], c, objects[c]);
  }

  lemma SetDescribes(page: nat, table: map<nat, nat>, objects: map<nat, nat>, ptr: nat, sz: nat)
    requires page > 0 && Describes(page, table, objects) && ptr !in objects && Disjoint(objects[ptr := sz])
    ensures Describes(page, SetRange(table, ptr, sz, page), objects[ptr := sz])
  {
    var t', o' := SetRange(table, ptr, sz, page), objects[ptr := sz];
    SetRangeEntries(table, ptr, sz, page);
    forall b, k
      ensures HasPage(o', b, k, page) <==> HasPage(objects, b, k, page) || (b == ptr && PageOf(ptr, sz, k, page))
    {
    }
    forall k | k in t'
      ensures exists b :: HasPage(o', b, k, page)
    {
      if PageOf(ptr, sz, k, page) {
        assert HasPage(o', ptr, k, page);
      } else {
        var b :| HasPage(objects, b, k, page);
        assert HasPage(o', b, k, page);
      }
    }
    forall b, k | HasPage(o', b, k, page)
      ensures k in t' && t'[k] == b + o'[b] - k
    {
      if PageOf(ptr, sz, k, page) {
        OneObjectPerPage(o', b, ptr, k, page);
      }
    }
  }

  lemma ClearDescribes(page: nat, table: map<nat, nat>, objects: map<nat, nat>, ptr: nat)
    requires page > 0 && Describes(page, table, objects) && Disjoint(objects) && ptr in objects
    ensures Lookup(table, ptr) == objects[ptr]
    ensures Describes(page, ClearRange(table, ptr, objects[ptr], page), objects - {ptr})
  {
    var t', o' := ClearRange(table, ptr, objects[ptr], page), objects - {ptr};
    BaseIsPage(objects, ptr, page);
    ClearRangeEntries(table, ptr, objects[ptr], page);
    forall k | k in t'
      ensures exists b :: HasPage(o', b, k, page)
    {
      HasPageStill(objects, ptr, k, page);
    }
    forall b, k | HasPage(o', b, k, page)
      ensures k in t' && t'[k] == b + o'[b] - k
    {
      KeepsItsPage(page, table, objects, ptr, b, k);
    }
  }

  lemma HasPageStill(objects: map<nat, nat>, ptr: nat, k: nat, page: nat)
    requires page > 0 && ptr in objects && !PageOf(ptr, objects[ptr], k, page)
    requires exists b :: HasPage(objects, b, k, page)
    ensures exists b :: HasPage(objects - {ptr}, b, k, page)
  {
    var b :| HasPage(objects, b, k, page);
    assert HasPage(objects - {ptr}, b, k, page);
  }

  lemma KeepsItsPage(page: nat, table: map<nat, nat>, objects: map<nat, nat>, ptr: nat, b: nat, k: nat)
    requires page > 0 && Describes(page, table, objects) && Disjoint(objects) && ptr in objects && b != ptr
    requires HasPage(objects, b, k, page)
    ensures k in table && table[k] == b + objects[b] - k && !PageOf(ptr, objects[ptr], k, page)
  {
    NotItsPage(objects, b, ptr, k, page);
  }

  lemma NotItsPage(objects: map<nat, nat>, b: nat, c: nat, k: nat, page: nat)
    requires page > 0 && Disjoint(objects) && HasPage(objects, b, k, page) && c in objects && b != c
    ensures !PageOf(c, objects[c], k, page)
  {
    if HasPage(objects, c, k, page) { OneObjectPerPage(objects, b, c, k, page); }
  }

  lemma MapKeeps(page: nat, s: State, t: nat, ptr: nat, sz: nat)
    requires page > 0 && Inv(page, s) && Enabled(page, s, Map(t, ptr, sz))
    ensures Inv(page, Apply(page, s, Map(t, ptr, sz)))
  {
    var s' := Apply(page, s, Map(t, ptr, sz));
    assert ptr in s.mapped ==> HeapSpec.Apart(ptr, s.mapped[ptr], ptr, sz);
    forall v | 0 <= v < |s.pcs| && s.pcs[v].Mapped?
      ensures s.pcs[v].ptr in s.mapped
    {
      assert ThreadOk(s, v);
    }
    forall u | 0 <= u < |s'.pcs|
      ensures ThreadOk(s', u)
    {
      assert ThreadOk(s, u);
    }
    if s.lock.HeldToClear? {
      var u :| 0 <= u < |s.pcs| && s.pcs[u].Clearing?;
      assert s'.pcs[u].Clearing?;
    }
  }

  lemma RegisterKeeps(page: nat, s: State, t: nat)
    requires page > 0 && Inv(page, s) && Enabled(page, s, Register(t))
    ensures Inv(page, Apply(page, s, Register(t)))
  {
    var s' := Apply(page, s, Register(t));
    var pc := s.pcs[t];
    assert ThreadOk(s, t);
    forall b, c | b in s'.registered && c in s'.registered && b != c
      ensures HeapSpec.Apart(b, s'.registered[b], c, s'.registered[c])
    {
      assert HeapSpec.Apart(b, s.mapped[b], c, s.mapped[c]);
    }
    SetDescribes(page, s.table, s.registered, pc.ptr, pc.sz);
    forall u | 0 <= u < |s'.pcs|
      ensures ThreadOk(s', u)
    {
      assert ThreadOk(s, u);
    }
  }

  lemma BeginFreeKeeps(page: nat, s: State, t: nat, ptr: nat)
    requires page > 0 && Inv(page, s) && Enabled(page, s, BeginFree(t, ptr))
    ensures Inv(page, Apply(page, s, BeginFree(t, ptr)))
  {
    if ptr in s.registered {
      BaseIsPage(s.registered, ptr, page);
      forall u | 0 <= u < |s.pcs|
        ensures ThreadOk(Unmapped(s, t, ptr), u)
      {
        UnmappedThread(s, t, ptr, u);
      }
      assert Unmapped(s, t, ptr).pcs[t].Clearing?;
    }
  }

  /** The state after free has unmapped the object at ptr. */
  function Unmapped(s: State, t: nat, ptr: nat): State
    requires t < |s.pcs|
  {
    s.(lock := HeldToClear(ptr), mapped := s.mapped - {ptr}, pcs := s.pcs[t := Clearing(ptr)])
  }

  lemma UnmappedThread(s: State, t: nat, ptr: nat, u: nat)
    requires t < |s.pcs| && u < |s.pcs| && s.lock.Unlocked? && ptr in s.registered && s.pcs[t].Idle?
    requires forall v :: 0 <= v < |s.pcs| ==> ThreadOk(s, v)
    ensures ThreadOk(Unmapped(s, t, ptr), u)
  {
    assert ThreadOk(s, u);
    if u == t {
      forall v | 0 <= v < |s.pcs| && v != t
        ensures !s.pcs[v].Clearing?
      {
        assert ThreadOk(s, v);
      }
    }
  }

  lemma FinishFreeKeeps(page: nat, s: State, t: nat)
    requires page > 0 && Inv(page, s) && Enabled(page, s, FinishFree(t))
    ensures Inv(page, Apply(page, s, FinishFree(t)))
  {
    var s' := Apply(page, s, FinishFree(t));
    assert ThreadOk(s, t);
    ClearDescribes(page, s.table, s.registered, s.pcs[t].ptr);
    forall u | 0 <= u < |s'.pcs|
      ensures ThreadOk(s', u)
    {
      assert ThreadOk(s, u);
    }
  }

  lemma {:induction false} RunKeeps(page: nat, run: seq<State>, steps: seq<Step>, n: nat)
    requires page > 0 && IsRun(page, run, steps) && n < |run|
    ensures Inv(page, run[n])
  {
    if n > 0 {
      RunKeeps(page, run, steps, n - 1);
      match steps[n - 1]
      case Map(t, ptr, sz) => MapKeeps(page, run[n - 1], t, ptr, sz);
      case Register(t) => RegisterKeeps(page, run[n - 1], t);
      case BeginFree(t, ptr) => BeginFreeKeeps(page, run[n - 1], t, ptr);
      case FinishFree(t) => FinishFreeKeeps(page, run[n - 1], t);
    }
  }

  /**
   * In every interleaving the table is exactly the remaining sizes of the
   * registered objects, also while another thread has been given a range that
   * was just unmapped and whose entries still stand.
   */
  lemma TableIsExact(page: nat, run: seq<State>, steps: seq<Step>, n: nat)
    requires page > 0 && IsRun(page, run, steps) && n < |run|
    ensures Describes(page, run[n].table, run[n].registered) && Disjoint(run[n].registered)
  {
    RunKeeps(page, run, steps, n);
  }

  /** getSize at the start of a page is what remains of the object that has the page, zero when none has it. */
  lemma SizeIsRemaining(page: nat, run: seq<State>, steps: seq<Step>, n: nat, k: nat)
    requires page > 0 && IsRun(page, run, steps) && n < |run|
    ensures forall b: nat | HasPage(run[n].registered, b, k, page) ::
              Lookup(run[n].table, k) == b + run[n].registered[b] - k > 0
    ensures Lookup(run[n].table, k) == 0 <==> forall b: nat :: !HasPage(run[n].registered, b, k, page)
  {
    RunKeeps(page, run, steps, n);
    if k in run[n].table {
      var b: nat :| HasPage(run[n].registered, b, k, page);
      assert run[n].table[k] == b + run[n].registered[b] - k;
    }
  }

  /** Free unmaps exactly the memory of the object it is given. */
  lemma FreeReturnsItsMemory(page: nat, run: seq<State>, steps: seq<Step>, n: nat, t: nat, ptr: nat)
    requires page > 0 && IsRun(page, run, steps) && n < |steps| && steps[n] == BeginFree(t, ptr)
    ensures var s, s' := run[n], run[n + 1];
            if ptr in s.registered
            then Lookup(s.table, ptr) == s.registered[ptr] && ptr in s.mapped && s.mapped[ptr] == s.registered[ptr]
                 && s'.mapped == s.mapped - {ptr} && s'.pcs[t] == Clearing(ptr)
            else s' == s
  {
    RunKeeps(page, run, steps, n);
    assert Enabled(page, run[n], steps[n]) && run[n + 1] == Apply(page, run[n], steps[n]);
    if ptr in run[n].registered {
      BaseIsPage(run[n].registered, ptr, page);
    }
  }

  /**
   * The step that ends a malloc enters every page of its object with what is
   * left of the object there, and changes nothing else.
   */
  lemma MallocEndsRegistered(page: nat, run: seq<State>, steps: seq<Step>, n: nat, t: nat)
    requires page > 0 && IsRun(page, run, steps) && n < |steps| && steps[n] == Register(t)
    ensures t < |run[n].pcs| && run[n].pcs[t].Mapped?
    ensures var s, s', pc := run[n], run[n + 1], run[n].pcs[t];
            && s' == s.(table := s'.table, registered := s.registered[pc.ptr := pc.sz], pcs := s.pcs[t := Idle])
            && forall k :: if PageOf(pc.ptr, pc.sz, k, page) then Lookup(s'.table, k) == pc.ptr + pc.sz - k > 0
                           else Lookup(s'.table, k) == Lookup(s.table, k)
  {
    var s, pc := run[n], run[n].pcs[t];
    assert Enabled(page, s, steps[n]) && run[n + 1] == Apply(page, s, steps[n]);
    SetRangeEntries(s.table, pc.ptr, pc.sz, page);
  }

  /** The step that ends a free leaves no entry for any page of its object, and changes no other. */
  lemma FreeEndsCleared(page: nat, run: seq<State>, steps: seq<Step>, n: nat, t: nat)
    requires page > 0 && IsRun(page, run, steps) && n < |steps| && steps[n] == FinishFree(t)
    ensures t < |run[n].pcs| && run[n].pcs[t].Clearing? && run[n].pcs[t].ptr in run[n].registered
    ensures var s, s', ptr := run[n], run[n + 1], run[n].pcs[t].ptr;
            && s' == s.(table := s'.table, registered := s.registered - {ptr}, lock := Unlocked, pcs := s.pcs[t := Idle])
            && forall k :: if PageOf(ptr, s.registered[ptr], k, page) then k !in s'.table
                           else Lookup(s'.table, k) == Lookup(s.table, k)
  {
    RunKeeps(page, run, steps, n);
    var s := run[n];
    assert Enabled(page, s, steps[n]) && run[n + 1] == Apply(page, s, steps[n]);
    assert ThreadOk(s, t);
    var ptr := s.pcs[t].ptr;
    ClearDescribes(page, s.table, s.registered, ptr);
    ClearRangeEntries(s.table, ptr, s.registered[ptr], page);
  }

  /** The lock is always released: whoever holds it is ready for the step that gives it back. */
  lemma LockIsReleased(page: nat, run: seq<State>, steps: seq<Step>, n: nat)
    requires page > 0 && IsRun(page, run, steps) && n < |run| && run[n].lock.HeldToClear?
    ensures exists t: nat :: Enabled(page, run[n], FinishFree(t)) && Apply(page, run[n], FinishFree(t)).lock == Unlocked
  {
    RunKeeps(page, run, steps, n);
    var t: nat :| t < |run[n].pcs| && run[n].pcs[t].Clearing?;
    assert Enabled(page, run[n], FinishFree(t));
  }
}
