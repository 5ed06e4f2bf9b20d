/**
 * Progress of concurrent growth (RandomHeap::malloc, growHeapIfNeeded and
 * getAnotherMiniHeap in src/include/randomheap.h): whatever the other threads
 * have done so far, a thread that is left to run gets through its growth check
 * if the heap can grow enough, and whoever holds the grow lock gives it back.
 */
module GrowthProgress {
  import opened PowersOfTwo
  import opened Growth

  /** The state after thread t alone has made one move for each draw. */
  function Alone(p: Params, s: State, t: nat, draws: seq<nat>): (r: State)
    requires t < |s.pcs|
    ensures |r.pcs| == |s.pcs|
    decreases |draws|
  {
    if draws == [] then s else Alone(p, ApplyMove(p, s, t, draws[0]), t, draws[1..])
  }

  lemma AlonePrefix(p: Params, s: State, t: nat, draws: seq<nat>, n: nat)
    requires t < |s.pcs| && 0 < n <= |draws|
    ensures Alone(p, s, t, draws[..n]) == Alone(p, ApplyMove(p, s, t, draws[0]), t, draws[1..][..n - 1])
  {
    assert draws[..n][1..] == draws[1..][..n - 1];
  }

  /** A thread between the start of malloc and the choice of a miniheap, outside the growth section. */
  predicate Checks(pc: Pc) {
    pc != Idle && pc != Pick && !pc.Place? && pc != CountUp && !InGrowth(pc)
  }

  /** Nobody else holds the grow lock. */
  predicate Unhindered(s: State, t: nat) {
    s.growLock ==> s.owner == t
  }

  lemma CapacityMonotone(p: Params, j: nat, k: nat)
    requires j <= k
    ensures Capacity(p, j) <= Capacity(p, k)
  {
    if 0 < j { Pow2Monotone(j - 1, k - 1); }
    if 0 < k { MulMonotone(if j == 0 then 0 else Pow2(j - 1), Pow2(k - 1), p.minObjects); }
  }

  lemma EnoughMonotone(p: Params, inUse: nat, a: nat, b: nat)
    requires a <= b
    ensures Enough(p, inUse, a) ==> Enough(p, inUse, b)
  {
    MulMonotone(a, b, p.den);
  }

  /** The activations still to come when k miniheaps are active: none once their space is enough. */
  function Missing(p: Params, inUse: nat, k: nat): nat {
    if Enough(p, inUse, Capacity(p, k)) || k >= p.maxHeaps then 0 else p.maxHeaps - k
  }

  lemma MissingFalls(p: Params, inUse: nat, k: nat)
    requires Enough(p, inUse, Capacity(p, p.maxHeaps)) && k < p.maxHeaps
    ensures Missing(p, inUse, k + 1) <= Missing(p, inUse, k)
    ensures !Enough(p, inUse, Capacity(p, k)) ==> Missing(p, inUse, k + 1) < Missing(p, inUse, k)
  {
    CapacityMonotone(p, k, k + 1);
    EnoughMonotone(p, inUse, Capacity(p, k), Capacity(p, k + 1));
  }

  /** How many moves a thread needs from the loop test of growHeapIfNeeded on. */
  function FromLoop(p: Params, inUse: nat, k: nat): nat {
    12 * Missing(p, inUse, k) + 2
  }

  /** How many moves are left after the growth section when it sees the present counters. */
  function AfterSection(p: Params, inUse: nat, k: nat): nat {
    var m := Missing(p, inUse, k);
    12 * (if m == 0 then 0 else m - 1) + 2
  }

  /** At most how many moves thread t needs to get to the choice of a miniheap. */
  function Distance(p: Params, s: State, pc: Pc): nat {
    var loop, section := FromLoop(p, s.inUse, s.heaps), AfterSection(p, s.inUse, s.heaps);
    match pc
    case FastInUse => loop + 2
    case FastAvailable(_) => loop + 1
    case LoopInUse => loop
    case LoopAvailable(n) => if Enough(p, n, s.available) then 1 else section + 11
    case TryLock => section + 10
    case Spin => loop + 13
    case AgainInUse => loop + 12
    case AgainAvailable(_) => loop + 11
    case TryLockAgain => section + 10
    case CsHeaps => section + 9
    case CsInUse(_) => section + 8
    case CsAvailable(k, n) => if Enough(p, n, s.available) then loop + 2 else section + 7
    case CsNewAvailable(k) => FromLoop(p, s.inUse, k + 1) + 6
    case CsActivate(k, _) => FromLoop(p, s.inUse, k + 1) + 5
    case CsStoreAvailable(k, _) => FromLoop(p, s.inUse, k + 1) + 4
    case CsStoreChunks(k) => FromLoop(p, s.inUse, k + 1) + 3
    case CsStoreHeaps(k) => FromLoop(p, s.inUse, k + 1) + 2
    case CsUnlock => loop + 1
    case _ => 0
  }

  /** Thread t still has its growth check before it, nobody is in its way, and the heap can grow enough. */
  ghost predicate CanGetThrough(p: Params, s: State, t: nat) {
    && Inv(p, s) && t < |s.pcs| && Unhindered(s, t)
    && (Checks(s.pcs[t]) || InGrowth(s.pcs[t]))
    && Enough(p, s.inUse, Capacity(p, p.maxHeaps))
  }

  /** A move of thread t led from s to s': t is at the choice of a miniheap, or nearer to it. */
  predicate Nearer(p: Params, s: State, s': State, t: nat) {
    && t < |s.pcs| == |s'.pcs| && Unhindered(s', t) && s'.inUse == s.inUse
    && if s'.pcs[t] == Pick then !s'.growLock
       else (Checks(s'.pcs[t]) || InGrowth(s'.pcs[t])) && Distance(p, s', s'.pcs[t]) < Distance(p, s, s.pcs[t])
  }

  lemma CheckBringsNearer(p: Params, s: State, t: nat, draw: nat, pc: Pc)
    requires CanGetThrough(p, s, t) && pc == s.pcs[t] && Checks(pc)
    ensures Nearer(p, s, ApplyMove(p, s, t, draw), t)
  {
    assert !s.growLock && s.available == Capacity(p, s.heaps) && s.heaps <= p.maxHeaps;
  }

  /** The test inside the section, which may use a count loaded long ago. */
  lemma TestBringsNearer(p: Params, s: State, t: nat, draw: nat, k: nat, n: nat)
    requires t < |s.pcs| && s.pcs[t] == CsAvailable(k, n) && Unhindered(s, t)
    requires Settled(p, s, k) && Enough(p, s.inUse, Capacity(p, p.maxHeaps))
    ensures Nearer(p, s, ApplyMove(p, s, t, draw), t)
  {
    if k < p.maxHeaps { MissingFalls(p, s.inUse, k); }
  }

  /** The other steps of the section before anything is published. */
  lemma LoadsBringNearer(p: Params, s: State, t: nat, draw: nat, k: nat)
    requires t < |s.pcs| && Unhindered(s, t) && Settled(p, s, k)
    requires var pc := s.pcs[t]; pc == CsHeaps || pc == CsInUse(k) || pc == CsUnlock
    ensures Nearer(p, s, ApplyMove(p, s, t, draw), t)
  {
  }

  lemma StoresBringNearer(p: Params, s: State, t: nat, draw: nat, pc: Pc)
    requires t < |s.pcs| && pc == s.pcs[t] && Unhindered(s, t) && s.growLock
    requires pc.CsNewAvailable? || pc.CsActivate? || pc.CsStoreAvailable? || pc.CsStoreChunks? || pc.CsStoreHeaps?
    ensures Nearer(p, s, ApplyMove(p, s, t, draw), t)
  {
  }

  lemma SectionBringsNearer(p: Params, s: State, t: nat, draw: nat, pc: Pc)
    requires CanGetThrough(p, s, t) && pc == s.pcs[t] && InGrowth(pc)
    ensures Nearer(p, s, ApplyMove(p, s, t, draw), t)
  {
    assert s.owner == t && GrowthOk(p, s, pc);
    match pc
    case CsAvailable(k, n) => TestBringsNearer(p, s, t, draw, k, n);
    case CsHeaps => LoadsBringNearer(p, s, t, draw, s.heaps);
    case CsInUse(k) => LoadsBringNearer(p, s, t, draw, k);
    case CsUnlock => LoadsBringNearer(p, s, t, draw, s.heaps);
    case _ => StoresBringNearer(p, s, t, draw, pc);
  }

  lemma MoveBringsNearer(p: Params, s: State, t: nat, draw: nat)
    requires CanGetThrough(p, s, t)
    ensures Inv(p, ApplyMove(p, s, t, draw)) && Nearer(p, s, ApplyMove(p, s, t, draw), t)
  {
    StepInv(p, s, Move(t, draw));
    if InGrowth(s.pcs[t]) {
      SectionBringsNearer(p, s, t, draw, s.pcs[t]);
    } else {
      CheckBringsNearer(p, s, t, draw, s.pcs[t]);
    }
  }

  /** After these moves of its own, thread t chooses a miniheap; the lock is free and nothing was counted. */
  predicate AtPick(p: Params, s: State, t: nat, draws: seq<nat>) {
    && t < |s.pcs|
    && var s' := Alone(p, s, t, draws);
       s'.pcs[t] == Pick && !s'.growLock && s'.inUse == s.inUse
  }

  /** Some of these moves, from the first on, bring thread t to the choice of a miniheap. */
  ghost predicate GetsThrough(p: Params, s: State, t: nat, draws: seq<nat>) {
    exists n :: 0 <= n <= |draws| && AtPick(p, s, t, draws[..n])
  }

  lemma {:induction false} GetsThroughFrom(p: Params, s: State, t: nat, draws: seq<nat>)
    requires CanGetThrough(p, s, t) && |draws| >= Distance(p, s, s.pcs[t])
    ensures GetsThrough(p, s, t, draws)
    decreases |draws|
  {
    assert Distance(p, s, s.pcs[t]) > 0;
    MoveBringsNearer(p, s, t, draws[0]);
    var s' := ApplyMove(p, s, t, draws[0]);
    if s'.pcs[t] == Pick {
      AlonePrefix(p, s, t, draws, 1);
      assert AtPick(p, s, t, draws[..1]);
    } else {
      GetsThroughFrom(p, s', t, draws[1..]);
      var n :| 0 <= n <= |draws[1..]| && AtPick(p, s', t, draws[1..][..n]);
      AlonePrefix(p, s, t, draws, n + 1);
      assert AtPick(p, s, t, draws[..n + 1]);
    }
  }

  /** Moves enough for any thread, when this many miniheaps are active. */
  function Bound(p: Params, heaps: nat): nat {
    12 * (if heaps < p.maxHeaps then p.maxHeaps - heaps else 0) + 15
  }

  lemma DistanceBounded(p: Params, s: State, t: nat)
    requires CanGetThrough(p, s, t)
    ensures Distance(p, s, s.pcs[t]) <= Bound(p, s.heaps)
  {
    if InGrowth(s.pcs[t]) { assert GrowthOk(p, s, s.pcs[t]); }
  }

  /**
   * In every reachable state a thread at any point of its growth check gets
   * through it by a bounded number of moves of its own, provided nobody else
   * holds the grow lock and the whole ladder of miniheaps is enough.
   */
  lemma NobodyWaitsForNothing(p: Params, run: seq<State>, steps: seq<Step>, i: nat, t: nat, draws: seq<nat>)
    requires IsRun(p, run, steps) && i < |run| && t < |run[i].pcs|
    requires Checks(run[i].pcs[t]) || InGrowth(run[i].pcs[t])
    requires !run[i].growLock || run[i].owner == t
    requires Enough(p, run[i].inUse, Capacity(p, p.maxHeaps)) && |draws| >= Bound(p, run[i].heaps)
    ensures GetsThrough(p, run[i], t, draws)
  {
    RunInv(p, run, steps, i);
    DistanceBounded(p, run[i], t);
    GetsThroughFrom(p, run[i], t, draws);
  }

  // ---------------------------------------------------------------------
  // The lock is given back
  // ---------------------------------------------------------------------

  /** At most how many moves the thread in the growth section needs to leave it. */
  function ToUnlock(pc: Pc): nat {
    match pc
    case CsHeaps => 9
    case CsInUse(_) => 8
    case CsAvailable(_, _) => 7
    case CsNewAvailable(_) => 6
    case CsActivate(_, _) => 5
    case CsStoreAvailable(_, _) => 4
    case CsStoreChunks(_) => 3
    case CsStoreHeaps(_) => 2
    case CsUnlock => 1
    case _ => 0
  }

  /** By these moves of its own thread t left the growth section: the lock is free and nobody else was moved. */
  ghost predicate GivesBack(p: Params, s: State, t: nat, draws: seq<nat>) {
    && t < |s.pcs|
    && var s' := Alone(p, s, t, draws);
       && !s'.growLock && Inv(p, s') && s'.inUse == s.inUse && s.heaps <= s'.heaps
       && forall u :: 0 <= u < |s.pcs| && u != t ==> s'.pcs[u] == s.pcs[u]
  }

  lemma SectionStep(p: Params, s: State, t: nat, draw: nat)
    requires Inv(p, s) && s.growLock && s.owner == t
    ensures t < |s.pcs|
    ensures var s' := ApplyMove(p, s, t, draw);
            && Inv(p, s') && s'.inUse == s.inUse && s.heaps <= s'.heaps
            && s'.pcs == s.pcs[t := s'.pcs[t]]
            && (s'.growLock ==> s'.owner == t && ToUnlock(s'.pcs[t]) < ToUnlock(s.pcs[t]))
  {
    assert InGrowth(s.pcs[t]) && GrowthOk(p, s, s.pcs[t]);
    StepInv(p, s, Move(t, draw));
  }

  lemma {:induction false} GivesBackFrom(p: Params, s: State, draws: seq<nat>)
    requires Inv(p, s) && s.growLock && |draws| >= ToUnlock(s.pcs[s.owner])
    ensures exists n :: 0 <= n <= |draws| && GivesBack(p, s, s.owner, draws[..n])
    decreases |draws|
  {
    var t := s.owner;
    assert InGrowth(s.pcs[t]);
    var s' := ApplyMove(p, s, t, draws[0]);
    SectionStep(p, s, t, draws[0]);
    if !s'.growLock {
      AlonePrefix(p, s, t, draws, 1);
      assert GivesBack(p, s, t, draws[..1]);
    } else {
      GivesBackFrom(p, s', draws[1..]);
      var n :| 0 <= n <= |draws[1..]| && GivesBack(p, s', t, draws[1..][..n]);
      AlonePrefix(p, s, t, draws, n + 1);
      assert GivesBack(p, s, t, draws[..n + 1]);
    }
  }

  /** Whoever holds the grow lock gives it back by at most nine moves of its own. */
  lemma LockIsGivenBack(p: Params, run: seq<State>, steps: seq<Step>, i: nat, draws: seq<nat>)
    requires IsRun(p, run, steps) && i < |run| && run[i].growLock && |draws| >= 9
    ensures exists n :: 0 <= n <= |draws| && GivesBack(p, run[i], run[i].owner, draws[..n])
  {
    RunInv(p, run, steps, i);
    GivesBackFrom(p, run[i], draws);
  }

  /**
   * Every thread that waits gets through: the thread that holds the lock, left
   * to run, gives it back, and the one that waits, left to run then, chooses a
   * miniheap.
   */
  lemma EveryWaiterGetsThrough(p: Params, run: seq<State>, steps: seq<Step>, i: nat, t: nat,
                               first: seq<nat>, rest: seq<nat>)
    requires IsRun(p, run, steps) && i < |run| && t < |run[i].pcs|
    requires Checks(run[i].pcs[t]) && run[i].growLock && |first| >= 9
    requires Enough(p, run[i].inUse, Capacity(p, p.maxHeaps)) && |rest| >= Bound(p, run[i].heaps)
    ensures run[i].owner < |run[i].pcs|
    ensures exists n :: 0 <= n <= |first| && GetsThrough(p, Alone(p, run[i], run[i].owner, first[..n]), t, rest)
  {
    var s := run[i];
    RunInv(p, run, steps, i);
    LockIsGivenBack(p, run, steps, i, first);
    var n :| 0 <= n <= |first| && GivesBack(p, s, s.owner, first[..n]);
    var s' := Alone(p, s, s.owner, first[..n]);
    DistanceBounded(p, s', t);
    GetsThroughFrom(p, s', t, rest);
  }

  // ---------------------------------------------------------------------
  // While another thread grows the heap
  // ---------------------------------------------------------------------

  /** How many moves a thread needs to get to the choice of a miniheap or to the wait for the lock. */
  function ToHalt(pc: Pc): nat {
    match pc
    case FastInUse => 5
    case FastAvailable(_) => 4
    case LoopInUse => 3
    case LoopAvailable(_) => 2
    case TryLock => 1
    case AgainInUse => 6
    case AgainAvailable(_) => 5
    case TryLockAgain => 4
    case _ => 0
  }

  /** The thread has a load test with an up-to-date count before it, or one that it passes. */
  predicate WillPass(p: Params, s: State, pc: Pc) {
    match pc
    case LoopAvailable(n) => Enough(p, n, s.available)
    case TryLock => false
    case Spin => false
    case _ => Enough(p, s.inUse, s.available)
  }

  predicate HaltsAt(p: Params, s: State, t: nat, draws: seq<nat>, pc: Pc) {
    t < |s.pcs| && Alone(p, s, t, draws).pcs[t] == pc
  }

  lemma HaltStep(p: Params, s: State, t: nat, draw: nat, pc: Pc)
    requires t < |s.pcs| && s.growLock && pc == s.pcs[t] && Checks(pc) && pc != Spin
    ensures var s' := ApplyMove(p, s, t, draw);
            && s' == Goto(s, t, s'.pcs[t]) && ToHalt(s'.pcs[t]) < ToHalt(pc)
            && (Checks(s'.pcs[t]) || s'.pcs[t] == Pick)
            && (WillPass(p, s, pc) ==> s'.pcs[t] == Pick || WillPass(p, s', s'.pcs[t]))
  {
    match pc
    case FastInUse =>
    case FastAvailable(_) =>
    case LoopInUse =>
    case LoopAvailable(_) =>
    case TryLock =>
    case AgainInUse =>
    case AgainAvailable(_) =>
    case TryLockAgain =>
  }

  lemma {:induction false} HaltsFrom(p: Params, s: State, t: nat, draws: seq<nat>) returns (n: nat)
    requires t < |s.pcs| && s.growLock && (Checks(s.pcs[t]) || s.pcs[t] == Pick) && |draws| >= ToHalt(s.pcs[t])
    ensures n <= |draws| && (HaltsAt(p, s, t, draws[..n], Pick) || HaltsAt(p, s, t, draws[..n], Spin))
    ensures WillPass(p, s, s.pcs[t]) || s.pcs[t] == Pick ==> HaltsAt(p, s, t, draws[..n], Pick)
    decreases ToHalt(s.pcs[t])
  {
    if s.pcs[t] == Pick || s.pcs[t] == Spin {
      n := 0;
      assert draws[..0] == [];
    } else {
      HaltStep(p, s, t, draws[0], s.pcs[t]);
      n := HaltsFrom(p, ApplyMove(p, s, t, draws[0]), t, draws[1..]);
      n := n + 1;
      AlonePrefix(p, s, t, draws, n);
    }
  }

  /**
   * While another thread holds the lock, a thread in its growth check waits
   * nowhere but in the loop that watches the lock, which it comes to, if not to
   * the choice of a miniheap, by at most six moves of its own; and it does not
   * wait at all when there is enough space and it has yet to load the counters.
   */
  lemma WaitsOnlyForTheLock(p: Params, run: seq<State>, steps: seq<Step>, i: nat, t: nat, draws: seq<nat>)
    requires IsRun(p, run, steps) && i < |run| && t < |run[i].pcs|
    requires Checks(run[i].pcs[t]) && run[i].growLock && |draws| >= 6
    ensures exists n :: 0 <= n <= |draws| &&
              (HaltsAt(p, run[i], t, draws[..n], Pick) || HaltsAt(p, run[i], t, draws[..n], Spin))
    ensures WillPass(p, run[i], run[i].pcs[t]) ==>
              exists n :: 0 <= n <= |draws| && HaltsAt(p, run[i], t, draws[..n], Pick)
  {
    var n := HaltsFrom(p, run[i], t, draws);
  }

  // ---------------------------------------------------------------------
  // A malloc that is left alone
  // ---------------------------------------------------------------------

  lemma {:induction false} AloneAppend(p: Params, s: State, t: nat, a: seq<nat>, b: seq<nat>)
    requires t < |s.pcs|
    ensures Alone(p, s, t, a + b) == Alone(p, Alone(p, s, t, a), t, b)
    decreases |a|
  {
    if a == [] {
      assert a + b == b;
    } else {
      assert (a + b)[1..] == a[1..] + b;
      AloneAppend(p, ApplyMove(p, s, t, a[0]), t, a[1..], b);
    }
  }

  lemma {:induction false} IdleStays(p: Params, s: State, t: nat, draws: seq<nat>)
    requires t < |s.pcs| && s.pcs[t] == Idle
    ensures Alone(p, s, t, draws) == s
    decreases |draws|
  {
    if draws != [] { IdleStays(p, s, t, draws[1..]); }
  }

  lemma FromPick(p: Params, s: State, t: nat, draws: seq<nat>)
    requires t < |s.pcs| && s.pcs[t] == Pick && |draws| >= 3
    ensures Alone(p, s, t, draws) == Goto(s.(inUse := s.inUse + 1), t, Idle)
  {
    var one, two := draws[1..], draws[1..][1..];
    var s1 := ApplyMove(p, s, t, draws[0]);
    var s2 := ApplyMove(p, s1, t, one[0]);
    var s3 := ApplyMove(p, s2, t, two[0]);
    assert s3.pcs == s.pcs[t := Idle];
    IdleStays(p, s3, t, two[1..]);
    assert Alone(p, s2, t, two) == s3;
    assert Alone(p, s1, t, one) == s3;
  }

  /**
   * A malloc that nobody hinders and whose slot is free comes back: after
   * enough moves of its own the thread is idle, the lock is free and one more
   * object is counted.
   */
  lemma MallocReturns(p: Params, run: seq<State>, steps: seq<Step>, i: nat, t: nat, draws: seq<nat>)
    requires IsRun(p, run, steps) && i < |run| && t < |run[i].pcs|
    requires Checks(run[i].pcs[t]) || InGrowth(run[i].pcs[t])
    requires !run[i].growLock || run[i].owner == t
    requires Enough(p, run[i].inUse, Capacity(p, p.maxHeaps)) && |draws| >= Bound(p, run[i].heaps) + 3
    ensures var s' := Alone(p, run[i], t, draws);
            s'.pcs[t] == Idle && !s'.growLock && s'.inUse == run[i].inUse + 1
  {
    var s, k := run[i], |draws| - 3;
    NobodyWaitsForNothing(p, run, steps, i, t, draws[..k]);
    var n :| 0 <= n <= k && AtPick(p, s, t, draws[..k][..n]);
    assert draws[..k][..n] == draws[..n] && draws[..n] + draws[n..] == draws;
    AloneAppend(p, s, t, draws[..n], draws[n..]);
    FromPick(p, Alone(p, s, t, draws[..n]), t, draws[n..]);
  }

  /** Thread t is in growHeapIfNeeded, alone, with an up-to-date count that no number of miniheaps is enough for. */
  ghost predicate Trapped(p: Params, s: State, t: nat) {
    && Inv(p, s) && t < |s.pcs| && Unhindered(s, t)
    && !Enough(p, s.inUse, Capacity(p, p.maxHeaps))
    && match s.pcs[t]
       case LoopInUse => true
       case LoopAvailable(n) => n == s.inUse
       case TryLock => true
       case _ => InGrowth(s.pcs[t])
  }

  lemma {:induction false} TrappedStays(p: Params, s: State, t: nat, draws: seq<nat>)
    requires Trapped(p, s, t)
    ensures Alone(p, s, t, draws).pcs[t] != Pick
    decreases |draws|
  {
    if draws != [] {
      StepInv(p, s, Move(t, draws[0]));
      if InGrowth(s.pcs[t]) {
        assert GrowthOk(p, s, s.pcs[t]);
      } else {
        CapacityMonotone(p, s.heaps, p.maxHeaps);
        EnoughMonotone(p, s.inUse, s.available, Capacity(p, p.maxHeaps));
      }
      TrappedStays(p, ApplyMove(p, s, t, draws[0]), t, draws[1..]);
    }
  }

  /**
   * growHeapIfNeeded, entered with the lock free and left alone, ends if and
   * only if the whole ladder of miniheaps is enough for the objects in use.
   */
  lemma GrowthEndsIff(p: Params, run: seq<State>, steps: seq<Step>, i: nat, t: nat)
    requires IsRun(p, run, steps) && i < |run| && t < |run[i].pcs|
    requires run[i].pcs[t] == LoopInUse && !run[i].growLock
    ensures (exists draws: seq<nat> :: Alone(p, run[i], t, draws).pcs[t] == Pick)
            <==> Enough(p, run[i].inUse, Capacity(p, p.maxHeaps))
  {
    RunInv(p, run, steps, i);
    if Enough(p, run[i].inUse, Capacity(p, p.maxHeaps)) {
      LoopEnds(p, run[i], t);
    } else {
      forall draws: seq<nat>
        ensures Alone(p, run[i], t, draws).pcs[t] != Pick
      {
        TrappedStays(p, run[i], t, draws);
      }
    }
  }

  lemma LoopEnds(p: Params, s: State, t: nat)
    requires CanGetThrough(p, s, t)
    ensures exists draws: seq<nat> :: Alone(p, s, t, draws).pcs[t] == Pick
  {
    var draws := seq(Distance(p, s, s.pcs[t]), _ => 0);
    GetsThroughFrom(p, s, t, draws);
    var n :| 0 <= n <= |draws| && AtPick(p, s, t, draws[..n]);
    assert Alone(p, s, t, draws[..n]).pcs[t] == Pick;
  }
}
