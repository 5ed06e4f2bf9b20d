/**
 * Runs that fill every slot the mask selects, while a thread still looks for
 * one.  With what Occupancy proves of all runs, they show exactly how many
 * threads it takes.
 */
module OccupancyRuns {
  import HeapSpec
  import opened PowersOfTwo
  import opened Growth
  import opened Placement
  import opened Occupancy

  /** Every event from a state in the set leads to one in it, as it does for the reachable states. */
  ghost predicate Closed(p: Params, r: Sys -> bool) {
    forall s, e {:trigger After(p, s, e)} | CanHappen(p, s, e) && r(s) :: r(After(p, s, e))
  }

  /** Some history of n threads ends in this state. */
  ghost predicate Reachable(p: Params, n: nat, s: Sys) {
    exists run: seq<Sys>, events :: IsHistory(p, run, events) && |run[0].growth.pcs| == n && run[|events|] == s
  }

  lemma ReachableIsClosed(p: Params, n: nat)
    ensures Closed(p, s => Reachable(p, n, s))
  {
    forall s, e | CanHappen(p, s, e) && Reachable(p, n, s)
      ensures Reachable(p, n, After(p, s, e))
    {
      var run: seq<Sys>, events :| IsHistory(p, run, events) && |run[0].growth.pcs| == n && run[|events|] == s;
      assert IsHistory(p, run + [After(p, s, e)], events + [e]);
    }
  }

  // ---------------------------------------------------------------------
  // What threads do on the slots of the active miniheaps
  // ---------------------------------------------------------------------

  predicate Ok(p: Params, s: Sys) {
    p.minObjects > 0 && |s.holds| == |s.growth.pcs| && s.freeing == 0
  }

  /** In the growth machine only the program counter of thread t and inUse have changed. */
  predicate OnlyMoved(s: Sys, s': Sys, t: nat) {
    && t < |s.growth.pcs| == |s'.growth.pcs| && |s'.holds| == |s.holds| && s'.freeing == s.freeing
    && s'.growth == s.growth.(pcs := s'.growth.pcs, inUse := s'.growth.inUse)
    && forall u | 0 <= u < |s.growth.pcs| && u != t :: s'.growth.pcs[u] == s.growth.pcs[u]
  }

  /** b slots are taken, none of them outside the first k miniheaps. */
  ghost predicate Filled(p: Params, k: nat, bits: set<Slot>, b: nat) {
    bits <= Slots(p, k) && |bits| == b
  }

  function Moved(p: Params, s: Sys, t: nat, draw: nat): Sys
    requires CanHappen(p, s, Access(Move(t, draw)))
  {
    After(p, s, Access(Move(t, draw)))
  }

  /** The slots held stay the same while no thread begins or ends to hold one. */
  lemma HeldSame(pcs: seq<Pc>, pcs': seq<Pc>, holds: seq<Slot>)
    requires |pcs| == |pcs'| && forall u | 0 <= u < |pcs| :: pcs[u].CountUp? <==> pcs'[u].CountUp?
    ensures Held(pcs', holds) == Held(pcs, holds)
  {
  }

  /** Thread t passes the load test. */
  lemma Passes(p: Params, r: Sys -> bool, s: Sys, t: nat) returns (s': Sys)
    requires Closed(p, r) && r(s) && Ok(p, s) && t < |s.growth.pcs| && s.growth.pcs[t] == Idle
    requires Enough(p, s.growth.inUse, s.growth.available)
    ensures r(s') && OnlyMoved(s, s', t) && s'.growth.pcs[t] == Pick && s'.growth.inUse == s.growth.inUse
    ensures Bits(s') == Bits(s)
  {
    var s1 := After(p, s, Access(Malloc(t)));
    var s2 := Moved(p, s1, t, 0);
    s' := Moved(p, s2, t, 0);
    HeldSame(s.growth.pcs, s'.growth.pcs, s.holds);
  }

  /** Thread t draws a free slot and takes it. */
  lemma Takes(p: Params, r: Sys -> bool, s: Sys, t: nat, k: nat, b: nat) returns (s': Sys)
    requires Closed(p, r) && r(s) && Ok(p, s) && t < |s.growth.pcs| && s.growth.pcs[t] == Pick
    requires k > 0 && s.growth.chunks == Chunks(k) && Filled(p, k, Bits(s), b) && b < Capacity(p, k)
    ensures r(s') && OnlyMoved(s, s', t) && s'.growth.pcs[t] == CountUp && s'.growth.inUse == s.growth.inUse
    ensures Filled(p, k, Bits(s'), b + 1)
  {
    FewerBitsThanSlots(p, s, k);
    var a: nat, d: nat :| Selected(p, s.growth.chunks, a, d) !in Bits(s);
    SelectedIff(p, k, Selected(p, Chunks(k), a, d));
    s' := TakesDrawn(p, r, s, t, a, d);
  }

  lemma TakesDrawn(p: Params, r: Sys -> bool, s: Sys, t: nat, a: nat, d: nat) returns (s': Sys)
    requires Closed(p, r) && r(s) && Ok(p, s) && t < |s.growth.pcs| && s.growth.pcs[t] == Pick
    requires Selected(p, s.growth.chunks, a, d) !in Bits(s)
    ensures r(s') && OnlyMoved(s, s', t) && s'.growth.pcs[t] == CountUp && s'.growth.inUse == s.growth.inUse
    ensures Bits(s') == Bits(s) + {Selected(p, s.growth.chunks, a, d)}
  {
    var s1 := Moved(p, s, t, a);
    HeldSame(s.growth.pcs, s1.growth.pcs, s.holds);
    s' := After(p, s1, Attempt(t, d));
    HeldMore(s1.growth.pcs, s1.holds, t, Selected(p, s.growth.chunks, a, d));
  }

  lemma HeldMore(pcs: seq<Pc>, holds: seq<Slot>, t: nat, slot: Slot)
    requires t < |pcs| == |holds| && !pcs[t].CountUp?
    ensures Held(pcs[t := CountUp], holds[t := slot]) == Held(pcs, holds) + {slot}
  {
    var pcs', holds' := pcs[t := CountUp], holds[t := slot];
    forall x | x in Held(pcs, holds) + {slot}
      ensures x in Held(pcs', holds')
    {
      if x in Held(pcs, holds) {
        var u :| 0 <= u < |pcs| && pcs[u].CountUp? && holds[u] == x;
        assert pcs'[u].CountUp? && holds'[u] == x;
      } else {
        assert pcs'[t].CountUp? && holds'[t] == x;
      }
    }
  }

  /** Thread t counts its object and returns. */
  lemma CountsUp(p: Params, r: Sys -> bool, s: Sys, t: nat) returns (s': Sys)
    requires Closed(p, r) && r(s) && Ok(p, s) && t < |s.growth.pcs| && s.growth.pcs[t] == CountUp
    ensures r(s') && OnlyMoved(s, s', t) && s'.growth.pcs[t] == Idle && s'.growth.inUse == s.growth.inUse + 1
    ensures Bits(s') == Bits(s)
  {
    s' := Moved(p, s, t, 0);
    HeldLess(s.growth.pcs, s.holds, t);
    SameBits(s.objects, s.holds[t], Held(s'.growth.pcs, s.holds), Held(s.growth.pcs, s.holds));
  }

  lemma SameBits(objects: set<Slot>, slot: Slot, held': set<Slot>, held: set<Slot>)
    requires held' + {slot} == held
    ensures objects + {slot} + held' == objects + held
  {
  }

  lemma HeldLess(pcs: seq<Pc>, holds: seq<Slot>, t: nat)
    requires t < |pcs| == |holds| && pcs[t].CountUp?
    ensures Held(pcs[t := Idle], holds) + {holds[t]} == Held(pcs, holds)
  {
    var pcs' := pcs[t := Idle];
    forall x | x in Held(pcs, holds)
      ensures x in Held(pcs', holds) + {holds[t]}
    {
      var u :| 0 <= u < |pcs| && pcs[u].CountUp? && holds[u] == x;
      if u != t { assert pcs'[u].CountUp?; }
    }
  }

  /** One whole malloc of thread t. */
  lemma Mallocs(p: Params, r: Sys -> bool, s: Sys, t: nat, k: nat, b: nat) returns (s': Sys)
    requires Closed(p, r) && r(s) && Ok(p, s) && t < |s.growth.pcs| && s.growth.pcs[t] == Idle
    requires Enough(p, s.growth.inUse, s.growth.available)
    requires k > 0 && s.growth.chunks == Chunks(k) && Filled(p, k, Bits(s), b) && b < Capacity(p, k)
    ensures r(s') && Ok(p, s') && s'.growth == s.growth.(inUse := s.growth.inUse + 1)
    ensures Filled(p, k, Bits(s'), b + 1)
  {
    var s1 := Passes(p, r, s, t);
    var s2 := Takes(p, r, s1, t, k, b);
    s' := CountsUp(p, r, s2, t);
    assert s'.growth.pcs == s.growth.pcs;
  }

  predicate NoneHeld(pcs: seq<Pc>) {
    forall u | 0 <= u < |pcs| :: !pcs[u].CountUp?
  }

  /** One object is freed. */
  lemma Frees(p: Params, r: Sys -> bool, s: Sys, k: nat, b: nat) returns (s': Sys)
    requires Closed(p, r) && r(s) && Ok(p, s) && NoneHeld(s.growth.pcs) && s.growth.inUse > 0
    requires Filled(p, k, Bits(s), b) && b > 0
    ensures r(s') && Ok(p, s') && s'.growth == s.growth.(inUse := s.growth.inUse - 1)
    ensures Filled(p, k, Bits(s'), b - 1)
  {
    assert Held(s.growth.pcs, s.holds) == {};
    assert Bits(s) == s.objects;
    var slot :| slot in s.objects;
    var s1 := After(p, s, ClearBit(slot));
    s' := After(p, s1, Access(LowerInUse));
    assert Bits(s') == Bits(s) - {slot};
  }

  /** With mallocs of thread t and frees, any number of objects that passes the load test can be in use. */
  lemma {:induction false} Adjusts(p: Params, r: Sys -> bool, s: Sys, t: nat, k: nat, m: nat) returns (s': Sys)
    requires Closed(p, r) && r(s) && Ok(p, s) && t < |s.growth.pcs| && s.growth.pcs[t] == Idle && NoneHeld(s.growth.pcs)
    requires k > 0 && s.growth.chunks == Chunks(k) && Filled(p, k, Bits(s), s.growth.inUse)
    requires Enough(p, m, s.growth.available) && m <= Capacity(p, k)
    ensures r(s') && Ok(p, s') && s'.growth == s.growth.(inUse := m) && Filled(p, k, Bits(s'), m)
    decreases if s.growth.inUse < m then m - s.growth.inUse else s.growth.inUse - m
  {
    var b := s.growth.inUse;
    if b < m {
      MulMonotone(b, m, p.num);
      s' := Mallocs(p, r, s, t, k, b);
      s' := Adjusts(p, r, s', t, k, m);
    } else if b > m {
      s' := Frees(p, r, s, k, b);
      s' := Adjusts(p, r, s', t, k, m);
    } else {
      s' := s;
      assert s.growth == s.growth.(inUse := m);
    }
  }

  // ---------------------------------------------------------------------
  // Growth by thread 0
  // ---------------------------------------------------------------------

  lemma EnoughIsFree(p: Params, m: nat, available: nat)
    requires p.num >= p.den && Enough(p, m, available)
    ensures m < available
  {
    if m >= available {
      MulMonotone(available, m, p.num);
      MulMonotone(p.den, p.num, available);
    }
  }

  /** Thread 0 is at pc, with or without the lock; nothing else has changed. */
  predicate At(s: Sys, s': Sys, pc: Pc, lock: bool) {
    && |s.growth.pcs| == |s'.growth.pcs| > 0 && s'.growth.pcs[0] == pc && s' == s.(growth := s'.growth)
    && s'.growth.owner == (if lock then 0 else s.growth.owner)
    && s'.growth == s.growth.(pcs := s'.growth.pcs, growLock := lock, owner := s'.growth.owner)
    && forall u | 0 < u < |s.growth.pcs| :: s'.growth.pcs[u] == s.growth.pcs[u]
  }

  /** A malloc of thread 0 fails the load test and tries the lock. */
  lemma Fails(p: Params, r: Sys -> bool, s: Sys) returns (s': Sys)
    requires Closed(p, r) && r(s) && Ok(p, s) && |s.growth.pcs| > 0 && s.growth.pcs[0] == Idle && !s.growth.growLock
    requires !Enough(p, s.growth.inUse, s.growth.available)
    ensures r(s') && At(s, s', TryLock, false)
  {
    var s1 := After(p, s, Access(Malloc(0)));
    var s2 := Moved(p, s1, 0, 0);
    var s3 := Moved(p, s2, 0, 0);
    var s4 := Moved(p, s3, 0, 0);
    s' := Moved(p, s4, 0, 0);
  }

  /** In the growth section it finds the test still failing. */
  lemma Locks(p: Params, r: Sys -> bool, s: Sys) returns (s': Sys)
    requires Closed(p, r) && r(s) && Ok(p, s) && |s.growth.pcs| > 0 && s.growth.pcs[0] == TryLock && !s.growth.growLock
    requires !Enough(p, s.growth.inUse, s.growth.available) && s.growth.heaps < p.maxHeaps
    ensures r(s') && At(s, s', CsNewAvailable(s.growth.heaps), true)
  {
    var s1 := Moved(p, s, 0, 0);
    var s2 := Moved(p, s1, 0, 0);
    var s3 := Moved(p, s2, 0, 0);
    s' := Moved(p, s3, 0, 0);
  }

  lemma Computes(p: Params, r: Sys -> bool, s: Sys, k: nat) returns (s': Sys)
    requires Closed(p, r) && r(s) && Ok(p, s) && |s.growth.pcs| > 0 && s.growth.pcs[0] == CsNewAvailable(k)
    requires s.growth.available == Capacity(p, k) && s.growth.growLock && s.growth.owner == 0
    ensures r(s') && At(s, s', CsActivate(k, Capacity(p, k + 1)), true)
  {
    CapacityGrows(p, k);
    s' := Moved(p, s, 0, 0);
  }

  /** Thread 0 is between the stores of a growth from k miniheaps. */
  predicate Open(p: Params, s: Sys, k: nat) {
    && Ok(p, s) && |s.growth.pcs| > 0 && s.growth.pcs[0] == CsStoreChunks(k)
    && s.growth.growLock && s.growth.owner == 0 && s.growth.heaps == k
    && s.growth.chunks == Chunks(k) && s.growth.available == Capacity(p, k + 1)
  }

  /** k miniheaps are active and nobody grows the heap. */
  predicate Level(p: Params, s: Sys, k: nat) {
    && Ok(p, s) && !s.growth.growLock && s.growth.heaps == k
    && s.growth.chunks == Chunks(k) && s.growth.available == Capacity(p, k)
  }

  predicate OthersSame(s: Sys, s': Sys) {
    && |s.growth.pcs| == |s'.growth.pcs|
    && forall u | 0 < u < |s.growth.pcs| :: s'.growth.pcs[u] == s.growth.pcs[u]
  }

  lemma Activates(p: Params, r: Sys -> bool, s: Sys, k: nat) returns (s': Sys)
    requires Closed(p, r) && r(s) && Ok(p, s) && |s.growth.pcs| > 0
    requires s.growth.pcs[0] == CsActivate(k, Capacity(p, k + 1))
    requires s.growth.growLock && s.growth.owner == 0 && s.growth.heaps == k && s.growth.chunks == Chunks(k)
    ensures r(s') && Open(p, s', k) && OthersSame(s, s') && s'.growth.inUse == s.growth.inUse
    ensures s'.objects == s.objects && s'.holds == s.holds
  {
    var s1 := Moved(p, s, 0, 0);
    s' := Moved(p, s1, 0, 0);
  }

  /** Thread 0, whose test fails, makes space for one miniheap more and does not store the mask yet. */
  lemma Widens(p: Params, r: Sys -> bool, s: Sys, k: nat) returns (s': Sys)
    requires Closed(p, r) && r(s) && Level(p, s, k) && |s.growth.pcs| > 0 && s.growth.pcs[0] == Idle && k < p.maxHeaps
    requires !Enough(p, s.growth.inUse, Capacity(p, k))
    ensures r(s') && Open(p, s', k) && OthersSame(s, s') && s'.growth.inUse == s.growth.inUse && Bits(s') == Bits(s)
  {
    var s1 := Fails(p, r, s);
    var s2 := Locks(p, r, s1);
    var s3 := Computes(p, r, s2, k);
    s' := Activates(p, r, s3, k);
    HeldSame(s.growth.pcs, s'.growth.pcs, s.holds);
  }

  /** It stores the mask and leaves the section. */
  lemma Closes(p: Params, r: Sys -> bool, s: Sys, k: nat) returns (s': Sys)
    requires Closed(p, r) && r(s) && Open(p, s, k)
    ensures r(s') && Level(p, s', k + 1) && OthersSame(s, s') && s'.growth.pcs[0] == LoopInUse
    ensures s'.growth.inUse == s.growth.inUse && Bits(s') == Bits(s)
  {
    var s1 := Moved(p, s, 0, 0);
    var s2 := Moved(p, s1, 0, 0);
    s' := Moved(p, s2, 0, 0);
    HeldSame(s.growth.pcs, s'.growth.pcs, s.holds);
  }

  lemma Retests(p: Params, r: Sys -> bool, s: Sys) returns (s': Sys)
    requires Closed(p, r) && r(s) && Ok(p, s) && |s.growth.pcs| > 0 && s.growth.pcs[0] == LoopInUse
    requires Enough(p, s.growth.inUse, s.growth.available)
    ensures r(s') && OnlyMoved(s, s', 0) && s'.growth.pcs[0] == Pick && s'.growth.inUse == s.growth.inUse
    ensures Bits(s') == Bits(s)
  {
    var s1 := Moved(p, s, 0, 0);
    s' := Moved(p, s1, 0, 0);
    HeldSame(s.growth.pcs, s'.growth.pcs, s.holds);
  }

  predicate AllIdle(pcs: seq<Pc>, n: nat) {
    |pcs| == n > 0 && forall u | 0 <= u < n :: pcs[u] == Idle
  }

  /** All threads are between two calls, k miniheaps are active and m objects in use. */
  ghost predicate Resting(p: Params, s: Sys, n: nat, k: nat, m: nat) {
    Level(p, s, k) && AllIdle(s.growth.pcs, n) && s.growth.inUse == m && Filled(p, k, Bits(s), m)
  }

  /** One malloc that makes the heap grow. */
  lemma Grows(p: Params, r: Sys -> bool, s: Sys, n: nat, k: nat, m: nat) returns (s': Sys)
    requires Closed(p, r) && r(s) && Resting(p, s, n, k, m) && HeapSpec.ParamsOk(p) && k < p.maxHeaps
    requires !Enough(p, m, Capacity(p, k)) && HeapSpec.WithinLoad(p, m, Capacity(p, k))
    ensures r(s') && Resting(p, s', n, k + 1, m + 1) && HeapSpec.WithinLoad(p, m + 1, Capacity(p, k + 1))
  {
    HeapSpec.OneActivationSuffices(p, k, m);
    EnoughIsFree(p, m, Capacity(p, k + 1));
    var s1 := Widens(p, r, s, k);
    var s2 := Closes(p, r, s1, k);
    var s3 := Retests(p, r, s2);
    MoreSlots(p, k, Bits(s), m);
    var s4 := Takes(p, r, s3, 0, k + 1, m);
    s' := CountsUp(p, r, s4, 0);
  }

  lemma MoreSlots(p: Params, k: nat, bits: set<Slot>, b: nat)
    requires Filled(p, k, bits, b)
    ensures Filled(p, k + 1, bits, b)
  {
  }

  lemma MallocsAtRest(p: Params, r: Sys -> bool, s: Sys, n: nat, k: nat, m: nat) returns (s': Sys)
    requires Closed(p, r) && r(s) && Resting(p, s, n, k, m) && p.num >= p.den && Enough(p, m, Capacity(p, k))
    ensures r(s') && Resting(p, s', n, k, m + 1) && m < Capacity(p, k)
    ensures HeapSpec.WithinLoad(p, m + 1, Capacity(p, k))
  {
    EnoughIsFree(p, m, Capacity(p, k));
    s' := Mallocs(p, r, s, 0, k, m);
  }

  /** Thread 0 allocates until the load test fails. */
  lemma {:induction false} FillsToTest(p: Params, r: Sys -> bool, s: Sys, n: nat, k: nat, m: nat)
    returns (s': Sys, m': nat)
    requires Closed(p, r) && r(s) && Resting(p, s, n, k, m) && p.num >= p.den
    requires HeapSpec.WithinLoad(p, m, Capacity(p, k))
    ensures r(s') && Resting(p, s', n, k, m')
    ensures !Enough(p, m', Capacity(p, k)) && HeapSpec.WithinLoad(p, m', Capacity(p, k))
    decreases Capacity(p, k) - m
  {
    if Enough(p, m, Capacity(p, k)) {
      s' := MallocsAtRest(p, r, s, n, k, m);
      s', m' := FillsToTest(p, r, s', n, k, m + 1);
    } else {
      s', m' := s, m;
    }
  }

  /** Malloc after malloc of thread 0 the heap grows, */
  lemma ClimbsOne(p: Params, r: Sys -> bool, s: Sys, n: nat, j: nat, m: nat) returns (s': Sys, m': nat)
    requires Closed(p, r) && r(s) && Resting(p, s, n, j, m) && HeapSpec.ParamsOk(p) && j < p.maxHeaps
    requires HeapSpec.WithinLoad(p, m, Capacity(p, j))
    ensures r(s') && Resting(p, s', n, j + 1, m') && HeapSpec.WithinLoad(p, m', Capacity(p, j + 1))
  {
    var s1, m1 := FillsToTest(p, r, s, n, j, m);
    s' := Grows(p, r, s1, n, j, m1);
    m' := m1 + 1;
  }

  /** until k miniheaps are active. */
  lemma {:induction false} Climbs(p: Params, r: Sys -> bool, s: Sys, n: nat, j: nat, m: nat, k: nat)
    returns (s': Sys, m': nat)
    requires Closed(p, r) && r(s) && Resting(p, s, n, j, m) && HeapSpec.ParamsOk(p) && j <= k <= p.maxHeaps
    requires HeapSpec.WithinLoad(p, m, Capacity(p, j))
    ensures r(s') && Resting(p, s', n, k, m')
    decreases k - j
  {
    s', m' := s, m;
    if j < k {
      s', m' := ClimbsOne(p, r, s, n, j, m);
      s', m' := Climbs(p, r, s', n, j + 1, m', k);
    }
  }

  lemma Begin(p: Params, n: nat) returns (s: Sys)
    requires n > 0 && p.minObjects > 0
    ensures Reachable(p, n, s) && Resting(p, s, n, 0, 0)
  {
    s := Sys(State(0, 0, 0, 0, false, seq(n, _ => Idle), 0, 0), {}, seq(n, _ => Slot(0, 0)), 0);
    assert Held(s.growth.pcs, s.holds) == {};
    assert Bits(s) == {};
    assert IsHistory(p, [s], []);
  }

  /** k miniheaps, and a number of objects that passes the load test. */
  lemma ReachesLevel(p: Params, k: nat, n: nat, m: nat) returns (s: Sys)
    requires HeapSpec.ParamsOk(p) && 1 <= k <= p.maxHeaps && n > 0 && Enough(p, m, Capacity(p, k))
    ensures Reachable(p, n, s) && Resting(p, s, n, k, m)
  {
    ReachableIsClosed(p, n);
    EnoughIsFree(p, m, Capacity(p, k));
    s := Begin(p, n);
    s := ClimbsTo(p, s => Reachable(p, n, s), s, n, k, m);
  }

  lemma ClimbsTo(p: Params, r: Sys -> bool, s: Sys, n: nat, k: nat, m: nat) returns (s': Sys)
    requires Closed(p, r) && r(s) && Resting(p, s, n, 0, 0) && HeapSpec.ParamsOk(p) && 1 <= k <= p.maxHeaps
    requires Enough(p, m, Capacity(p, k)) && m <= Capacity(p, k)
    ensures r(s') && Resting(p, s', n, k, m)
  {
    var s1, m1 := Climbs(p, r, s, n, 0, 0, k);
    s' := Adjusts(p, r, s1, 0, k, m);
  }

  // ---------------------------------------------------------------------
  // The race
  // ---------------------------------------------------------------------

  /** From thread f on: c threads hold a slot, those up to j have passed the test, the rest are between two calls. */
  predicate Racing(s: Sys, n: nat, f: nat, c: nat, j: nat) {
    && |s.growth.pcs| == n && f + c <= j <= n
    && forall u | f <= u < n :: s.growth.pcs[u] == if u < f + c then CountUp else if u < j then Pick else Idle
  }

  /** Below thread f, and in what the growth section writes, nothing has changed. */
  predicate Beside(s: Sys, s': Sys, f: nat) {
    && |s.growth.pcs| == |s'.growth.pcs| && |s.holds| == |s'.holds| && s'.freeing == s.freeing
    && s'.growth == s.growth.(pcs := s'.growth.pcs, inUse := s'.growth.inUse)
    && forall u | 0 <= u < f && u < |s.growth.pcs| :: s'.growth.pcs[u] == s.growth.pcs[u]
  }

  /** All of them make the test before any has counted its object. */
  lemma {:induction false} AllPass(p: Params, r: Sys -> bool, s: Sys, n: nat, f: nat, j: nat) returns (s': Sys)
    requires Closed(p, r) && r(s) && Ok(p, s) && Racing(s, n, f, 0, j) && Enough(p, s.growth.inUse, s.growth.available)
    ensures r(s') && Racing(s', n, f, 0, n) && Beside(s, s', f)
    ensures s'.growth.inUse == s.growth.inUse && Bits(s') == Bits(s)
    decreases n - j
  {
    s' := s;
    if j < n {
      s' := Passes(p, r, s, j);
      s' := AllPass(p, r, s', n, f, j + 1);
    }
  }

  /** c of them take a slot. */
  lemma {:induction false} SomeTake(p: Params, r: Sys -> bool, s: Sys, n: nat, f: nat, k: nat, b: nat, c: nat)
    returns (s': Sys)
    requires Closed(p, r) && r(s) && Ok(p, s) && Racing(s, n, f, 0, n) && f + c <= n
    requires k > 0 && s.growth.chunks == Chunks(k) && Filled(p, k, Bits(s), b) && b + c <= Capacity(p, k)
    ensures r(s') && Racing(s', n, f, c, n) && Beside(s, s', f) && s'.growth.inUse == s.growth.inUse
    ensures Filled(p, k, Bits(s'), b + c)
  {
    s' := s;
    if c > 0 {
      var s1 := SomeTake(p, r, s, n, f, k, b, c - 1);
      s' := Takes(p, r, s1, f + c - 1, k, b + c - 1);
    }
  }

  // ---------------------------------------------------------------------
  // The bound is reached
  // ---------------------------------------------------------------------

  /** A thread looks for a slot, and no pair of draws selects a free one. */
  ghost predicate Full(p: Params, s: Sys)
    requires p.minObjects > 0
  {
    !CanFind(p, s) && exists t :: 0 <= t < |s.growth.pcs| && Looks(s.growth.pcs[t])
  }

  /** Some history of n threads ends full, with this much space and the mask that goes with it. */
  ghost predicate CanBeFull(p: Params, n: nat, space: nat)
    requires p.minObjects > 0
  {
    exists s :: Reachable(p, n, s) && Full(p, s) && !BetweenStores(s.growth) && s.growth.available == space
  }

  /** Some history of n threads ends full between the two stores of a growth from k miniheaps. */
  ghost predicate CanBeFullBetween(p: Params, n: nat, k: nat)
    requires p.minObjects > 0
  {
    exists s :: Reachable(p, n, s) && Full(p, s) && BetweenStores(s.growth) && s.growth.heaps == k
  }

  lemma AllTaken(p: Params, s: Sys, k: nat, t: nat)
    requires p.minObjects > 0 && k > 0 && s.growth.chunks == Chunks(k) && Filled(p, k, Bits(s), Capacity(p, k))
    requires t < |s.growth.pcs| && s.growth.pcs[t] == Pick
    ensures Full(p, s)
  {
    SlotsSize(p, k);
    SameSize(Bits(s), Slots(p, k));
    forall a: nat, b: nat
      ensures Selected(p, s.growth.chunks, a, b) in Bits(s)
    {
      SelectedIff(p, k, Selected(p, Chunks(k), a, b));
    }
    assert Looks(s.growth.pcs[t]);
  }

  lemma SameSize<T>(a: set<T>, b: set<T>)
    requires a <= b && |a| == |b|
    ensures a == b
  {
    assert b == a + (b - a);
    assert |b - a| == 0;
  }

  /** How many objects must be in use before n threads race, to fill the slots and leave one thread without. */
  lemma Before(p: Params, room: nat, space: nat, n: nat) returns (m: nat)
    requires n > 0 && space * p.den > 0 && space * p.den + p.num * (n - 1) > room * p.num
    ensures Enough(p, m, space) && m <= room <= m + (n - 1)
  {
    if n - 1 >= room {
      m := 0;
    } else {
      m := room - (n - 1);
      Distribute(m, n - 1, p.num);
    }
  }

  /**
   * With k miniheaps active, n threads can fill every slot and leave one of
   * them drawing, until an object is freed or a miniheap activated, exactly if
   * the heap is not spacious for n.
   */
  lemma FullIff(p: Params, k: nat, n: nat)
    requires HeapSpec.ParamsOk(p) && 1 <= k <= p.maxHeaps && n > 0
    ensures CanBeFull(p, n, Capacity(p, k)) <==> !Spacious(p, Capacity(p, k), n)
  {
    if Spacious(p, Capacity(p, k), n) {
      NeverFull(p, n, Capacity(p, k));
    } else {
      FillsUp(p, k, n);
    }
  }

  lemma NeverFull(p: Params, n: nat, space: nat)
    requires p.num > 0 && p.minObjects > 0 && p.den > 0 && n > 0 && Spacious(p, space, n)
    ensures !CanBeFull(p, n, space)
  {
    forall s | Reachable(p, n, s) && !BetweenStores(s.growth) && s.growth.available == space
      ensures !Full(p, s)
    {
      var run: seq<Sys>, events :| IsHistory(p, run, events) && |run[0].growth.pcs| == n && run[|events|] == s;
      NotFullAt(p, run, events);
    }
  }

  lemma NotFullAt(p: Params, run: seq<Sys>, events: seq<Event>)
    requires p.num > 0 && p.den > 0 && p.minObjects > 0 && IsHistory(p, run, events) && |run[0].growth.pcs| > 0
    requires var s, n := run[|events|].growth, |run[0].growth.pcs|;
             if BetweenStores(s) then s.heaps > 0 && !TooTight(p, Capacity(p, s.heaps), n)
             else Spacious(p, s.available, n)
    ensures !Full(p, run[|events|])
  {
    var n := |events|;
    ThreadsStay(p, run, events, n);
    forall t | 0 <= t < |run[n].growth.pcs| && Looks(run[n].growth.pcs[t])
      ensures CanFind(p, run[n])
    {
      if BetweenStores(run[n].growth) {
        FreeSlotIsLeftInside(p, run, events, n, t);
      } else {
        FreeSlotIsLeft(p, run, events, n, t);
      }
    }
  }

  lemma ThreadsStay(p: Params, run: seq<Sys>, events: seq<Event>, n: nat)
    requires p.num > 0 && IsHistory(p, run, events) && |run[0].growth.pcs| > 0 && n < |run|
    ensures |run[n].growth.pcs| == |run[0].growth.pcs|
  {
    RunKeeps(p, run, events, n);
  }

  lemma PositiveLoad(p: Params, k: nat)
    requires p.den > 0 && p.minObjects > 0 && k > 0
    ensures Capacity(p, k) * p.den > 0
    ensures Capacity(p, k + 1) == 2 * Capacity(p, k)
  {
    MulPositive(p.minObjects, Pow2(k - 1));
    MulPositive(Capacity(p, k), p.den);
    CapacityGrows(p, k);
  }

  /** n threads race from a load that the test allows. */
  lemma Race(p: Params, r: Sys -> bool, s: Sys, n: nat, k: nat, m: nat) returns (s': Sys)
    requires Closed(p, r) && r(s) && Resting(p, s, n, k, m) && k > 0 && Enough(p, m, Capacity(p, k))
    requires m <= Capacity(p, k) <= m + (n - 1)
    ensures r(s') && Level(p, s', k) && Full(p, s')
  {
    var s1 := AllPass(p, r, s, n, 0, 0);
    s' := SomeTake(p, r, s1, n, 0, k, m, Capacity(p, k) - m);
    AllTaken(p, s', k, n - 1);
  }

  lemma FillsUp(p: Params, k: nat, n: nat)
    requires HeapSpec.ParamsOk(p) && 1 <= k <= p.maxHeaps && n > 0 && !Spacious(p, Capacity(p, k), n)
    ensures CanBeFull(p, n, Capacity(p, k))
  {
    PositiveLoad(p, k);
    var m := Before(p, Capacity(p, k), Capacity(p, k), n);
    var s := ReachesLevel(p, k, n, m);
    ReachableIsClosed(p, n);
    s := Race(p, s => Reachable(p, n, s), s, n, k, m);
  }

  // ---------------------------------------------------------------------
  // Between the stores
  // ---------------------------------------------------------------------

  /**
   * While one of n threads is between the stores of available and of the mask,
   * the others can take every slot the old mask selects and leave one of them
   * drawing, until it is stored or an object freed, exactly if it is too tight.
   */
  lemma FullBetweenIff(p: Params, k: nat, n: nat)
    requires HeapSpec.ParamsOk(p) && 1 <= k < p.maxHeaps && n > 0
    ensures CanBeFullBetween(p, n, k) <==> TooTight(p, Capacity(p, k), n)
  {
    if !TooTight(p, Capacity(p, k), n) {
      NeverFullBetween(p, k, n);
    } else if 2 * Capacity(p, k) * p.den + p.num * (n - 2) > Capacity(p, k) * p.num {
      FillsUpBetween(p, k, n);
    } else {
      OvertakesAndFills(p, k, n);
    }
  }

  /** Two threads are enough when the multiplier is below two, as it is by default. */
  lemma TwoThreadsSuffice(p: Params, k: nat)
    requires HeapSpec.ParamsOk(p) && 1 <= k < p.maxHeaps && p.num < 2 * p.den
    ensures CanBeFullBetween(p, 2, k)
  {
    PositiveLoad(p, k);
    Reassociate(2, p.den, Capacity(p, k));
    MulStrict(p.num, 2 * p.den, Capacity(p, k));
    FullBetweenIff(p, k, 2);
  }

  lemma NeverFullBetween(p: Params, k: nat, n: nat)
    requires p.num > 0 && p.den > 0 && p.minObjects > 0 && k > 0 && n > 0 && !TooTight(p, Capacity(p, k), n)
    ensures !CanBeFullBetween(p, n, k)
  {
    forall s | Reachable(p, n, s) && BetweenStores(s.growth) && s.growth.heaps == k
      ensures !Full(p, s)
    {
      var run: seq<Sys>, events :| IsHistory(p, run, events) && |run[0].growth.pcs| == n && run[|events|] == s;
      NotFullAt(p, run, events);
    }
  }

  /** Threads 1 to n - 1 race from a load that the new test allows. */
  lemma RaceBetween(p: Params, r: Sys -> bool, s: Sys, n: nat, k: nat, m: nat) returns (s': Sys)
    requires Closed(p, r) && r(s) && Open(p, s, k) && |s.growth.pcs| == n >= 2 && k > 0
    requires Filled(p, k, Bits(s), s.growth.inUse) && (forall u | 0 < u < n :: s.growth.pcs[u] == Idle)
    requires Enough(p, m, Capacity(p, k + 1)) && m <= Capacity(p, k) <= m + (n - 2)
    ensures r(s') && Open(p, s', k) && Full(p, s')
  {
    var s1 := Adjusts(p, r, s, 1, k, m);
    var s2 := AllPass(p, r, s1, n, 1, 1);
    s' := SomeTake(p, r, s2, n, 1, k, m, Capacity(p, k) - m);
    AllTaken(p, s', k, n - 1);
  }

  lemma FillsUpBetween(p: Params, k: nat, n: nat)
    requires HeapSpec.ParamsOk(p) && 1 <= k < p.maxHeaps && n >= 2
    requires 2 * Capacity(p, k) * p.den + p.num * (n - 2) > Capacity(p, k) * p.num
    ensures CanBeFullBetween(p, n, k)
  {
    PositiveLoad(p, k);
    Reassociate(2, Capacity(p, k), p.den);
    var m := Before(p, Capacity(p, k), Capacity(p, k + 1), n - 1);
    var s := ReachesLevel(p, k, n, 0);
    ReachableIsClosed(p, n);
    var r := (s: Sys) => Reachable(p, n, s);
    var m0: nat;
    s, m0 := FillsToTest(p, r, s, n, k, 0);
    s := Widens(p, r, s, k);
    s := RaceBetween(p, r, s, n, k, m);
  }

  // ---------------------------------------------------------------------
  // The thread that grows the heap is overtaken first
  // ---------------------------------------------------------------------

  /** Thread 0 is at w; of the threads 1 to d the first c are at x and the others at y; those behind passed the test. */
  predicate Wave(s: Sys, n: nat, d: nat, w: Pc, c: nat, x: Pc, y: Pc) {
    && |s.growth.pcs| == n > d >= c && s.growth.pcs[0] == w
    && forall u | 0 < u < n :: s.growth.pcs[u] == if u <= c then x else if u <= d then y else Pick
  }

  lemma {:induction false} CountAll(p: Params, r: Sys -> bool, s: Sys, n: nat, d: nat, c: nat) returns (s': Sys)
    requires Closed(p, r) && r(s) && Ok(p, s) && Wave(s, n, d, CountUp, c, Idle, CountUp)
    ensures r(s') && Wave(s', n, d, CountUp, d, Idle, CountUp) && Beside(s, s', 1)
    ensures s'.growth.inUse == s.growth.inUse + (d - c) && Bits(s') == Bits(s)
    decreases d - c
  {
    s' := s;
    if c < d {
      s' := CountsUp(p, r, s, c + 1);
      s' := CountAll(p, r, s', n, d, c + 1);
    }
  }

  lemma Loads(p: Params, r: Sys -> bool, s: Sys, t: nat) returns (s': Sys)
    requires Closed(p, r) && r(s) && Ok(p, s) && t < |s.growth.pcs| && s.growth.pcs[t] == Idle
    ensures r(s') && OnlyMoved(s, s', t) && s'.growth.pcs[t] == FastAvailable(s.growth.inUse)
    ensures s'.growth.inUse == s.growth.inUse && Bits(s') == Bits(s)
  {
    var s1 := After(p, s, Access(Malloc(t)));
    s' := Moved(p, s1, t, 0);
    HeldSame(s.growth.pcs, s'.growth.pcs, s.holds);
  }

  /** They load inUse for their next test. */
  lemma {:induction false} LoadAll(p: Params, r: Sys -> bool, s: Sys, n: nat, d: nat, c: nat) returns (s': Sys)
    requires Closed(p, r) && r(s) && Ok(p, s) && Wave(s, n, d, CountUp, c, FastAvailable(s.growth.inUse), Idle)
    ensures r(s') && Wave(s', n, d, CountUp, d, FastAvailable(s.growth.inUse), Idle) && Beside(s, s', 1)
    ensures s'.growth.inUse == s.growth.inUse && Bits(s') == Bits(s)
    decreases d - c
  {
    s' := s;
    if c < d {
      s' := Loads(p, r, s, c + 1);
      s' := LoadAll(p, r, s', n, d, c + 1);
    }
  }

  lemma PassesNow(p: Params, r: Sys -> bool, s: Sys, t: nat, v: nat) returns (s': Sys)
    requires Closed(p, r) && r(s) && Ok(p, s) && t < |s.growth.pcs| && s.growth.pcs[t] == FastAvailable(v)
    requires Enough(p, v, s.growth.available)
    ensures r(s') && OnlyMoved(s, s', t) && s'.growth.pcs[t] == Pick
    ensures s'.growth.inUse == s.growth.inUse && Bits(s') == Bits(s)
  {
    s' := Moved(p, s, t, 0);
    HeldSame(s.growth.pcs, s'.growth.pcs, s.holds);
  }

  /** With the new space what they loaded passes. */
  lemma {:induction false} PassAll(p: Params, r: Sys -> bool, s: Sys, n: nat, d: nat, w: Pc, v: nat, c: nat)
    returns (s': Sys)
    requires Closed(p, r) && r(s) && Ok(p, s) && Wave(s, n, d, w, c, Pick, FastAvailable(v))
    requires Enough(p, v, s.growth.available)
    ensures r(s') && Wave(s', n, d, w, d, Pick, FastAvailable(v)) && Beside(s, s', 1)
    ensures s'.growth.inUse == s.growth.inUse && Bits(s') == Bits(s)
    decreases d - c
  {
    s' := s;
    if c < d {
      s' := PassesNow(p, r, s, c + 1, v);
      s' := PassAll(p, r, s', n, d, w, v, c + 1);
    }
  }

  /** In the boundary case, the numbers of the run. */
  lemma Boundary(p: Params, room: nat, n: nat) returns (v: nat, m: nat)
    requires p.num > 0 && TooTight(p, room, n) && room * p.den > 0
    requires 2 * room * p.den + p.num * (n - 2) <= room * p.num
    ensures v <= m <= v + (n - 1) && m + 1 + (n - 2) == room
    ensures Enough(p, v, room) && Enough(p, m, 2 * room) && !Enough(p, m + 1, 2 * room)
  {
    m := BoundaryLoad(p, room, n);
    v :| Enough(p, v, room) && !Enough(p, v + n, 2 * room);
    MulMonotone(room, 2 * room, p.den);
    if v > m { MulMonotone(m + 1, v, p.num); }
    if v + n <= m { MulMonotone(v + n, m, p.num); }
  }

  lemma BoundaryLoad(p: Params, room: nat, n: nat) returns (m: nat)
    requires p.num > 0 && n >= 2 && 2 * room * p.den + p.num * (n - 1) > room * p.num && room * p.den > 0
    requires 2 * room * p.den + p.num * (n - 2) <= room * p.num
    ensures m + 1 + (n - 2) == room && Enough(p, m, 2 * room) && !Enough(p, m + 1, 2 * room)
  {
    Reassociate(2, room, p.den);
    if n - 2 >= room { MulMonotone(room, n - 2, p.num); }
    m := room - (n - 1);
    Distribute(m, n - 1, p.num);
    Distribute(m + 1, n - 2, p.num);
  }

  /** All threads pass the test at load v, and those up to d take a slot. */
  lemma HoldUp(p: Params, r: Sys -> bool, s: Sys, n: nat, k: nat, v: nat, d: nat) returns (s': Sys)
    requires Closed(p, r) && r(s) && Resting(p, s, n, k, v) && k > 0 && Enough(p, v, Capacity(p, k))
    requires d < n && v + d + 1 <= Capacity(p, k)
    ensures r(s') && Level(p, s', k) && s'.growth.inUse == v && Wave(s', n, d, CountUp, 0, Idle, CountUp)
    ensures Filled(p, k, Bits(s'), v + d + 1)
  {
    var s1 := AllPass(p, r, s, n, 0, 0);
    s' := SomeTake(p, r, s1, n, 0, k, v, d + 1);
  }

  /** All of these but thread 0 count it and load inUse again, before thread 0 counts. */
  lemma Reload(p: Params, r: Sys -> bool, s: Sys, n: nat, d: nat, k: nat) returns (s': Sys)
    requires Closed(p, r) && r(s) && Level(p, s, k) && Wave(s, n, d, CountUp, 0, Idle, CountUp)
    ensures r(s') && Level(p, s', k) && Wave(s', n, d, Idle, d, FastAvailable(s.growth.inUse + d), Idle)
    ensures s'.growth.inUse == s.growth.inUse + d + 1 && Bits(s') == Bits(s)
  {
    var s1 := CountAll(p, r, s, n, d, 0);
    var s2 := LoadAll(p, r, s1, n, d, 0);
    s' := CountsUp(p, r, s2, 0);
  }

  /** Then thread 0 grows the heap, the others pass the new test with what they loaded, and all but one take a slot. */
  lemma ThenFill(p: Params, r: Sys -> bool, s: Sys, n: nat, d: nat, k: nat, m: nat) returns (s': Sys)
    requires Closed(p, r) && r(s) && Level(p, s, k) && k > 0 && n >= 2 && k < p.maxHeaps
    requires s.growth.inUse == m + 1 && Filled(p, k, Bits(s), m + 1) && Wave(s, n, d, Idle, d, FastAvailable(m), Idle)
    requires !Enough(p, m + 1, Capacity(p, k)) && Enough(p, m, Capacity(p, k + 1)) && m + 1 + (n - 2) == Capacity(p, k)
    ensures r(s') && Open(p, s', k) && Full(p, s')
  {
    var s1 := Widens(p, r, s, k);
    var s2 := PassAll(p, r, s1, n, d, CsStoreChunks(k), m, 0);
    s' := SomeTake(p, r, s2, n, 1, k, m + 1, n - 2);
    AllTaken(p, s', k, n - 1);
  }

  lemma OvertakesAndFills(p: Params, k: nat, n: nat)
    requires HeapSpec.ParamsOk(p) && 1 <= k < p.maxHeaps && TooTight(p, Capacity(p, k), n)
    requires 2 * Capacity(p, k) * p.den + p.num * (n - 2) <= Capacity(p, k) * p.num
    ensures CanBeFullBetween(p, n, k)
  {
    PositiveLoad(p, k);
    var v, m := Boundary(p, Capacity(p, k), n);
    MulMonotone(Capacity(p, k), Capacity(p, k + 1), p.den);
    var s := ReachesLevel(p, k, n, v);
    ReachableIsClosed(p, n);
    var r := (s: Sys) => Reachable(p, n, s);
    s := HoldUp(p, r, s, n, k, v, m - v);
    s := Reload(p, r, s, n, m - v, k);
    s := ThenFill(p, r, s, n, m - v, k, m);
  }

  /** What the new test allows can leave a slot to every thread that keeps to it, and they still overtake it. */
  lemma OvertakingCanDecide()
    ensures var p, n := Params(4, 1, 4, 2), 4;
            2 * Capacity(p, 1) * p.den + p.num * (n - 2) <= Capacity(p, 1) * p.num && CanBeFullBetween(p, n, 1)
  {
    var p := Params(4, 1, 4, 2);
    assert Capacity(p, 1) == 4 by { assert Pow2(0) == 1; }
    assert Enough(p, 0, 4) && !Enough(p, 0 + 4, 2 * 4);
    assert Overtakes(p, 4, 4);
    FullBetweenIff(p, 1, 4);
  }
}
