/**
 * Concurrent growth of a size-class heap (RandomHeap::malloc,
 * growHeapIfNeeded and getAnotherMiniHeap in src/include/randomheap.h).
 *
 * Every atomic access is one step.  activated is history: how many miniheaps
 * have been given memory; owner is the thread that last took the grow lock.
 */
module Growth {
  import opened PowersOfTwo
  import opened Log2

  datatype Params = Params(num: nat, den: nat, minObjects: nat, maxHeaps: nat)

  /** Objects held by the first k miniheaps together. */
  function Capacity(p: Params, k: nat): nat {
    if k == 0 then 0 else p.minObjects * Pow2(k - 1)
  }

  /** The selection mask for k miniheaps. */
  function Chunks(k: nat): nat {
    if k == 0 then 0 else Pow2(k - 1) - 1
  }

  /** The size ladder: the first two miniheaps are equal, then each doubles. */
  function MiniHeapSize(p: Params, i: nat): nat {
    if i == 0 then p.minObjects else p.minObjects * Pow2(i - 1)
  }

  function TotalSize(p: Params, k: nat): nat {
    if k == 0 then 0 else TotalSize(p, k - 1) + MiniHeapSize(p, k - 1)
  }

  lemma {:induction false} CapacityIsTotalSize(p: Params, k: nat)
    ensures TotalSize(p, k) == Capacity(p, k)
  {
    if k > 0 {
      CapacityIsTotalSize(p, k - 1);
      if k >= 2 {
        assert p.minObjects * Pow2(k - 1) == p.minObjects * Pow2(k - 2) + p.minObjects * Pow2(k - 2);
      }
    }
  }

  datatype Pc =
    | Idle
    | FastInUse | FastAvailable(inUse: nat)                  // malloc's check
    | LoopInUse | LoopAvailable(inUse: nat)                  // growHeapIfNeeded's loop test
    | TryLock
    | Spin
    | AgainInUse | AgainAvailable(inUse: nat)                // re-check after the wait
    | TryLockAgain
    | CsHeaps                                                // here on: the growth section
    | CsInUse(heaps: nat) | CsAvailable(heaps: nat, inUse: nat)
    | CsNewAvailable(heaps: nat)
    | CsActivate(heaps: nat, newAvailable: nat)
    | CsStoreAvailable(heaps: nat, newAvailable: nat)
    | CsStoreChunks(heaps: nat)
    | CsStoreHeaps(heaps: nat)
    | CsUnlock
    | Pick                                                   // getObject: load the mask
    | Place(index: nat)                                      // malloc on the chosen miniheap
    | CountUp

  datatype State = State(
    available: nat,
    inUse: nat,
    heaps: nat,
    chunks: nat,
    growLock: bool,
    pcs: seq<Pc>,
    activated: nat,
    owner: nat)

  datatype Step =
    | Malloc(t: nat)
    | Move(t: nat, draw: nat)     // draw: the random number, where one is used
    | Collide(t: nat)             // the chosen slot was taken
    | LowerInUse                  // some free finished and lowered inUse

  ghost predicate Init(s: State) {
    && s.available == s.inUse == s.heaps == s.chunks == s.activated == 0
    && !s.growLock
    && forall t :: 0 <= t < |s.pcs| ==> s.pcs[t] == Idle
  }

  predicate Enabled(s: State, step: Step) {
    match step
    case Malloc(t) => t < |s.pcs| && s.pcs[t] == Idle
    case Move(t, _) => t < |s.pcs| && s.pcs[t] != Idle
    case Collide(t) => t < |s.pcs| && s.pcs[t].Place?
    case LowerInUse => s.inUse > 0
  }

  predicate Enough(p: Params, inUse: nat, available: nat) {
    p.num * inUse < available * p.den
  }

  /** The miniheap a draw selects: the mask keeps the low bits, log2 of the rest plus one is the index. */
  function Index(draw: nat, chunks: nat): nat {
    CeilLog2(draw % (chunks + 1) + 1)
  }

  function Goto(s: State, t: nat, pc: Pc): State
    requires t < |s.pcs|
  {
    s.(pcs := s.pcs[t := pc])
  }

  function Lock(s: State, t: nat, otherwise: Pc): State
    requires t < |s.pcs|
  {
    if s.growLock then Goto(s, t, otherwise)
    else Goto(s.(growLock := true, owner := t), t, CsHeaps)
  }

  function ApplyMove(p: Params, s: State, t: nat, draw: nat): State
    requires t < |s.pcs|
  {
    match s.pcs[t]
    case Idle => s
    case FastInUse => Goto(s, t, FastAvailable(s.inUse))
    case FastAvailable(n) => Goto(s, t, if Enough(p, n, s.available) then Pick else LoopInUse)
    case LoopInUse => Goto(s, t, LoopAvailable(s.inUse))
    case LoopAvailable(n) => Goto(s, t, if Enough(p, n, s.available) then Pick else TryLock)
    case TryLock => Lock(s, t, Spin)
    case Spin => Goto(s, t, if s.growLock then Spin else AgainInUse)
    case AgainInUse => Goto(s, t, AgainAvailable(s.inUse))
    case AgainAvailable(n) => Goto(s, t, if Enough(p, n, s.available) then LoopInUse else TryLockAgain)
    case TryLockAgain => Lock(s, t, LoopInUse)
    case CsHeaps => Goto(s, t, CsInUse(s.heaps))
    case CsInUse(k) => Goto(s, t, CsAvailable(k, s.inUse))
    case CsAvailable(k, n) =>
      Goto(s, t, if Enough(p, n, s.available) then CsUnlock
                 else if k < p.maxHeaps then CsNewAvailable(k) else CsUnlock)
    case CsNewAvailable(k) =>
      Goto(s, t, CsActivate(k, s.available + if k == 0 then p.minObjects else Pow2(k - 1) * p.minObjects))
    case CsActivate(k, n) => Goto(s.(activated := k + 1), t, CsStoreAvailable(k, n))
    case CsStoreAvailable(k, n) => Goto(s.(available := n), t, CsStoreChunks(k))
    case CsStoreChunks(k) => Goto(s.(chunks := Pow2(k) - 1), t, CsStoreHeaps(k))
    case CsStoreHeaps(k) => Goto(s.(heaps := k + 1), t, CsUnlock)
    case CsUnlock => Goto(s.(growLock := false), t, LoopInUse)
    case Pick => Goto(s, t, Place(Index(draw, s.chunks)))
    case Place(_) => Goto(s, t, CountUp)
    case CountUp => Goto(s.(inUse := s.inUse + 1), t, Idle)
  }

  function Apply(p: Params, s: State, step: Step): State
    requires Enabled(s, step)
  {
    match step
    case Malloc(t) => Goto(s, t, FastInUse)
    case Move(t, draw) => ApplyMove(p, s, t, draw)
    case Collide(t) => Goto(s, t, Pick)
    case LowerInUse => s.(inUse := s.inUse - 1)
  }

  predicate InGrowth(pc: Pc) {
    pc.CsHeaps? || pc.CsInUse? || pc.CsAvailable? || pc.CsNewAvailable? || pc.CsActivate?
    || pc.CsStoreAvailable? || pc.CsStoreChunks? || pc.CsStoreHeaps? || pc.CsUnlock?
  }

  /** All counters agree that exactly k miniheaps are in use. */
  predicate Settled(p: Params, s: State, k: nat) {
    s.heaps == s.activated == k && s.available == Capacity(p, k) && s.chunks == Chunks(k) && k <= p.maxHeaps
  }

  /** What the counters say while the thread with this program counter is growing the heap. */
  predicate GrowthOk(p: Params, s: State, pc: Pc) {
    match pc
    case CsInUse(k) => Settled(p, s, k)
    case CsAvailable(k, _) => Settled(p, s, k)
    case CsNewAvailable(k) => Settled(p, s, k) && k < p.maxHeaps
    case CsActivate(k, n) => Settled(p, s, k) && k < p.maxHeaps && n == Capacity(p, k + 1)
    case CsStoreAvailable(k, n) =>
      && s.heaps == k < s.activated == k + 1 <= p.maxHeaps
      && s.available == Capacity(p, k) && s.chunks == Chunks(k) && n == Capacity(p, k + 1)
    case CsStoreChunks(k) =>
      && s.heaps == k < s.activated == k + 1 <= p.maxHeaps
      && s.available == Capacity(p, k + 1) && s.chunks == Chunks(k)
    case CsStoreHeaps(k) =>
      && s.heaps == k < s.activated == k + 1 <= p.maxHeaps
      && s.available == Capacity(p, k + 1) && s.chunks == Chunks(k + 1)
    case _ => Settled(p, s, s.heaps)
  }

  predicate ThreadOk(s: State, pc: Pc) {
    && (pc.Pick? || pc.CountUp? ==> s.activated > 0)
    && (pc.Place? ==> pc.index < s.activated)
  }

  ghost predicate Inv(p: Params, s: State) {
    && (s.growLock ==> s.owner < |s.pcs|)
    && (forall t :: 0 <= t < |s.pcs| ==> (InGrowth(s.pcs[t]) <==> s.growLock && s.owner == t))
    && (forall t :: 0 <= t < |s.pcs| ==> ThreadOk(s, s.pcs[t]))
    && (if s.growLock then GrowthOk(p, s, s.pcs[s.owner]) else Settled(p, s, s.heaps))
  }

  /** In every state of the invariant the mask belongs to a number of miniheaps that are all activated. */
  lemma MaskIsBehind(p: Params, s: State)
    requires Inv(p, s)
    ensures exists k: nat :: k <= s.activated && s.chunks == Chunks(k)
    ensures s.available > 0 ==> s.activated > 0
  {
    if s.growLock {
      var pc := s.pcs[s.owner];
      assert InGrowth(pc) && GrowthOk(p, s, pc);
      if pc.CsStoreAvailable? || pc.CsStoreChunks? {
        assert s.chunks == Chunks(pc.heaps);
      } else if pc.CsStoreHeaps? {
        assert s.chunks == Chunks(pc.heaps + 1);
      } else {
        assert s.chunks == Chunks(s.heaps);
      }
    } else {
      assert s.chunks == Chunks(s.heaps);
    }
  }

  lemma IndexInRange(draw: nat, k: nat)
    ensures Index(draw, Chunks(k)) < if k == 0 then 1 else k
  {
    var v := draw % (Chunks(k) + 1);
    var bound := if k == 0 then 0 else k - 1;
    assert Chunks(k) + 1 == Pow2(bound);
    assert v + 1 <= Pow2(bound);
    CeilLog2Correct(v + 1);
  }

  lemma CapacityGrows(p: Params, k: nat)
    ensures Capacity(p, k + 1) == Capacity(p, k) + if k == 0 then p.minObjects else Pow2(k - 1) * p.minObjects
  {
    if k > 0 {
      assert p.minObjects * Pow2(k) == p.minObjects * Pow2(k - 1) + p.minObjects * Pow2(k - 1);
    } else {
      assert p.minObjects * Pow2(0) == p.minObjects;
    }
  }

  lemma GrowthStep(p: Params, s: State, t: nat, draw: nat)
    requires Inv(p, s) && Enabled(s, Move(t, draw)) && InGrowth(s.pcs[t])
    ensures Inv(p, Apply(p, s, Move(t, draw)))
  {
    var pc := s.pcs[t];
    assert s.owner == t && GrowthOk(p, s, pc);
    var s' := Apply(p, s, Move(t, draw));
    if pc.CsNewAvailable? { CapacityGrows(p, pc.heaps); }
    forall u | 0 <= u < |s'.pcs|
      ensures InGrowth(s'.pcs[u]) <==> s'.growLock && s'.owner == u
      ensures ThreadOk(s', s'.pcs[u])
    {
      assert ThreadOk(s, s.pcs[u]);
    }
  }

  lemma QuietMove(p: Params, s: State, t: nat, pc: Pc, inUse: nat)
    requires Inv(p, s) && t < |s.pcs| && !InGrowth(s.pcs[t]) && !InGrowth(pc) && ThreadOk(s, pc)
    ensures Inv(p, Goto(s.(inUse := inUse), t, pc))
  {
    var s' := Goto(s.(inUse := inUse), t, pc);
    forall u | 0 <= u < |s'.pcs|
      ensures InGrowth(s'.pcs[u]) <==> s'.growLock && s'.owner == u
      ensures ThreadOk(s', s'.pcs[u])
    {
      assert ThreadOk(s, s.pcs[u]);
    }
  }

  lemma LockMove(p: Params, s: State, t: nat)
    requires Inv(p, s) && t < |s.pcs| && !InGrowth(s.pcs[t]) && !s.growLock
    ensures Inv(p, Goto(s.(growLock := true, owner := t), t, CsHeaps))
  {
    var s' := Goto(s.(growLock := true, owner := t), t, CsHeaps);
    forall u | 0 <= u < |s'.pcs|
      ensures InGrowth(s'.pcs[u]) <==> s'.growLock && s'.owner == u
      ensures ThreadOk(s', s'.pcs[u])
    {
      assert ThreadOk(s, s.pcs[u]);
    }
  }

  /** The new program counter of a thread outside the growth section that does not take the lock. */
  lemma QuietTarget(p: Params, s: State, t: nat, draw: nat)
    requires Inv(p, s) && Enabled(s, Move(t, draw)) && !InGrowth(s.pcs[t])
    requires s.growLock || !(s.pcs[t].TryLock? || s.pcs[t].TryLockAgain?)
    ensures var s' := Apply(p, s, Move(t, draw));
            && |s'.pcs| == |s.pcs| && s' == Goto(s.(inUse := s'.inUse), t, s'.pcs[t])
            && !InGrowth(s'.pcs[t]) && ThreadOk(s, s'.pcs[t])
  {
    var pc := s.pcs[t];
    assert ThreadOk(s, pc);
    MaskIsBehind(p, s);
    if pc.Pick? {
      var k: nat :| k <= s.activated && s.chunks == Chunks(k);
      IndexInRange(draw, k);
    } else if pc.FastAvailable? || pc.LoopAvailable? {
      EnoughNeedsSpace(p, pc.inUse, s.available);
    }
  }

  lemma OutsideStep(p: Params, s: State, t: nat, draw: nat)
    requires Inv(p, s) && Enabled(s, Move(t, draw)) && !InGrowth(s.pcs[t])
    ensures Inv(p, Apply(p, s, Move(t, draw)))
  {
    if !s.growLock && (s.pcs[t].TryLock? || s.pcs[t].TryLockAgain?) {
      LockMove(p, s, t);
    } else {
      QuietTarget(p, s, t, draw);
      var s' := Apply(p, s, Move(t, draw));
      QuietMove(p, s, t, s'.pcs[t], s'.inUse);
    }
  }

  lemma StepInv(p: Params, s: State, step: Step)
    requires Inv(p, s) && Enabled(s, step)
    ensures Inv(p, Apply(p, s, step))
  {
    match step
    case Move(t, draw) =>
      if InGrowth(s.pcs[t]) {
        GrowthStep(p, s, t, draw);
      } else {
        OutsideStep(p, s, t, draw);
      }
    case Malloc(t) =>
    case Collide(t) => assert ThreadOk(s, s.pcs[t]);
    case LowerInUse =>
  }

  lemma EnoughNeedsSpace(p: Params, inUse: nat, available: nat)
    ensures Enough(p, inUse, available) ==> available > 0
  {
  }

  ghost predicate IsRun(p: Params, run: seq<State>, steps: seq<Step>) {
    && |run| == |steps| + 1
    && Init(run[0])
    && forall i :: 0 <= i < |steps| ==> Enabled(run[i], steps[i]) && run[i + 1] == Apply(p, run[i], steps[i])
  }

  lemma {:induction false} RunInv(p: Params, run: seq<State>, steps: seq<Step>, n: nat)
    requires IsRun(p, run, steps) && n < |run|
    ensures Inv(p, run[n])
  {
    if n > 0 {
      RunInv(p, run, steps, n - 1);
      StepInv(p, run[n - 1], steps[n - 1]);
    }
  }

  /** At most one thread is in the growth section, and only while the lock is taken. */
  lemma GrowthIsExclusive(p: Params, run: seq<State>, steps: seq<Step>, n: nat, t: nat, u: nat)
    requires IsRun(p, run, steps) && n < |run| && t < |run[n].pcs| && u < |run[n].pcs|
    requires InGrowth(run[n].pcs[t])
    ensures run[n].growLock && (InGrowth(run[n].pcs[u]) ==> u == t)
  {
    RunInv(p, run, steps, n);
  }

  /** Whenever the lock is free, the counters describe exactly the activated miniheaps. */
  lemma CountersSettle(p: Params, run: seq<State>, steps: seq<Step>, n: nat)
    requires IsRun(p, run, steps) && n < |run| && !run[n].growLock
    ensures var s, k := run[n], run[n].heaps;
            && s.activated == k <= p.maxHeaps && s.available == TotalSize(p, k)
            && (k >= 1 ==> s.available == p.minObjects * Pow2(k - 1) && s.chunks == Pow2(k - 1) - 1)
  {
    RunInv(p, run, steps, n);
    CapacityIsTotalSize(p, run[n].heaps);
  }

  /** A thread that has passed the growth check always picks a miniheap that has memory, growth under way or not. */
  lemma PickedMiniHeapIsActive(p: Params, run: seq<State>, steps: seq<Step>, n: nat, t: nat, draw: nat)
    requires IsRun(p, run, steps) && n < |run| && t < |run[n].pcs|
    ensures run[n].pcs[t] == Pick ==> Index(draw, run[n].chunks) < run[n].activated
    ensures run[n].pcs[t].Place? ==> run[n].pcs[t].index < run[n].activated
  {
    RunInv(p, run, steps, n);
    MaskIsBehind(p, run[n]);
    assert ThreadOk(run[n], run[n].pcs[t]);
    var k: nat :| k <= run[n].activated && run[n].chunks == Chunks(k);
    IndexInRange(draw, k);
  }

  /** No counter is lower in s' than in s. */
  predicate NotLower(s: State, s': State) {
    s.activated <= s'.activated && s.heaps <= s'.heaps && s.available <= s'.available && s.chunks <= s'.chunks
  }

  /** Activation is at most one miniheap ahead of the published count. */
  predicate Trails(p: Params, s: State) {
    s.heaps <= s.activated <= s.heaps + 1 && s.activated <= p.maxHeaps
  }

  /** Miniheaps are activated one at a time, each once, in order, and nothing shrinks. */
  lemma GrowthIsMonotone(p: Params, run: seq<State>, steps: seq<Step>, i: nat, j: nat)
    requires IsRun(p, run, steps) && i <= j < |run|
    ensures run[i].activated <= run[j].activated <= p.maxHeaps
    ensures run[i].heaps <= run[j].heaps <= run[j].activated <= run[j].heaps + 1
    ensures run[i].available <= run[j].available && run[i].chunks <= run[j].chunks
  {
    RunNotLower(p, run, steps, i, j);
    HeapsTrail(p, run, steps, j);
  }

  lemma {:induction false} RunNotLower(p: Params, run: seq<State>, steps: seq<Step>, i: nat, j: nat)
    requires IsRun(p, run, steps) && i <= j < |run|
    ensures NotLower(run[i], run[j])
  {
    if i < j {
      RunNotLower(p, run, steps, i, j - 1);
      NextNotLower(p, run, steps, j - 1);
    }
  }

  lemma NextNotLower(p: Params, run: seq<State>, steps: seq<Step>, n: nat)
    requires IsRun(p, run, steps) && n < |steps|
    ensures NotLower(run[n], run[n + 1])
  {
    RunInv(p, run, steps, n);
    StepIsMonotone(p, run[n], steps[n]);
  }

  lemma HeapsTrail(p: Params, run: seq<State>, steps: seq<Step>, n: nat)
    requires IsRun(p, run, steps) && n < |run|
    ensures Trails(p, run[n])
  {
    RunInv(p, run, steps, n);
    HeapsTrailActivated(p, run[n]);
  }

  lemma HeapsTrailActivated(p: Params, s: State)
    requires Inv(p, s)
    ensures Trails(p, s)
  {
    if s.growLock { assert GrowthOk(p, s, s.pcs[s.owner]); }
  }

  lemma StepIsMonotone(p: Params, s: State, step: Step)
    requires Inv(p, s) && Enabled(s, step)
    ensures NotLower(s, Apply(p, s, step))
  {
    if step.Move? && InGrowth(s.pcs[step.t]) {
      GrowthSectionIsMonotone(p, s, step.t, step.draw, s.pcs[step.t]);
    }
  }

  lemma GrowthSectionIsMonotone(p: Params, s: State, t: nat, draw: nat, pc: Pc)
    requires t < |s.pcs| && pc == s.pcs[t] && InGrowth(pc) && GrowthOk(p, s, pc)
    ensures NotLower(s, ApplyMove(p, s, t, draw))
  {
    if pc.CsStoreAvailable? {
      CapacityGrows(p, pc.heaps);
    } else if pc.CsStoreChunks? && pc.heaps > 0 {
      Pow2Monotone(pc.heaps - 1, pc.heaps);
    }
  }

  /** Thread t has the grow lock from state i to state n. */
  predicate HeldFrom(run: seq<State>, i: nat, n: nat, t: nat) {
    i <= n < |run| && forall j | i <= j <= n :: run[j].growLock && run[j].owner == t
  }

  /** What the count that thread t has loaded, or has found too high, was when it was loaded at state i. */
  predicate LoadedAt(p: Params, s: State, t: nat, inUse: nat) {
    t < |s.pcs| &&
    match s.pcs[t]
    case CsAvailable(_, m) => inUse == m
    case CsNewAvailable(_) => !Enough(p, inUse, s.available)
    case CsActivate(_, _) => !Enough(p, inUse, s.available)
    case _ => true
  }

  /** The growth section between the load of the count and the activation. */
  predicate Decides(pc: Pc) {
    pc.CsAvailable? || pc.CsNewAvailable? || pc.CsActivate?
  }

  /** A step that is not a move of the thread in the growth section. */
  lemma OthersLeaveSpace(p: Params, s: State, step: Step, t: nat)
    requires Inv(p, s) && Enabled(s, step) && t < |s.pcs| && InGrowth(s.pcs[t])
    requires !step.Move? || step.t != t
    ensures Apply(p, s, step).pcs[t] == s.pcs[t] && Apply(p, s, step).available == s.available
  {
  }

  lemma OwnDecision(p: Params, s: State, t: nat, draw: nat)
    requires t < |s.pcs| && Decides(ApplyMove(p, s, t, draw).pcs[t])
    ensures InGrowth(s.pcs[t])
    ensures if Decides(s.pcs[t]) then forall m: nat :: LoadedAt(p, s, t, m) ==> LoadedAt(p, ApplyMove(p, s, t, draw), t, m)
            else LoadedAt(p, ApplyMove(p, s, t, draw), t, s.inUse)
  {
  }

  lemma DecisionStep(p: Params, s: State, step: Step, t: nat)
    requires Inv(p, s) && Enabled(s, step) && t < |s.pcs| && Decides(Apply(p, s, step).pcs[t])
    ensures s.growLock && s.owner == t && InGrowth(s.pcs[t])
    ensures if Decides(s.pcs[t]) then forall m: nat :: LoadedAt(p, s, t, m) ==> LoadedAt(p, Apply(p, s, step), t, m)
            else LoadedAt(p, Apply(p, s, step), t, s.inUse)
  {
    if step.Move? && step.t == t {
      OwnDecision(p, s, t, step.draw);
    } else {
      OthersLeaveSpace(p, s, step, t);
    }
  }

  lemma DecisionBefore(p: Params, run: seq<State>, steps: seq<Step>, n: nat, t: nat)
    requires IsRun(p, run, steps) && n < |run| && t < |run[n].pcs| && Decides(run[n].pcs[t])
    ensures n > 0 && t < |run[n - 1].pcs| && InGrowth(run[n - 1].pcs[t])
    ensures HeldFrom(run, n - 1, n, t)
    ensures if Decides(run[n - 1].pcs[t])
            then forall m: nat :: LoadedAt(p, run[n - 1], t, m) ==> LoadedAt(p, run[n], t, m)
            else LoadedAt(p, run[n], t, run[n - 1].inUse)
  {
    RunInv(p, run, steps, n);
    RunInv(p, run, steps, n - 1);
    DecisionStep(p, run[n - 1], steps[n - 1], t);
  }

  lemma {:induction false} SectionHistory(p: Params, run: seq<State>, steps: seq<Step>, n: nat, t: nat) returns (i: nat)
    requires IsRun(p, run, steps) && n < |run| && t < |run[n].pcs| && Decides(run[n].pcs[t])
    ensures HeldFrom(run, i, n, t) && LoadedAt(p, run[n], t, run[i].inUse)
  {
    DecisionBefore(p, run, steps, n, t);
    i := n - 1;
    if Decides(run[n - 1].pcs[t]) {
      i := SectionHistory(p, run, steps, n - 1, t);
    }
  }

  /** No miniheap is activated unless the load test fails at some moment while the activating thread has the lock. */
  lemma GrowthNeedsLoad(p: Params, run: seq<State>, steps: seq<Step>, n: nat) returns (i: nat)
    requires IsRun(p, run, steps) && n < |steps| && run[n + 1].activated > run[n].activated
    ensures HeldFrom(run, i, n, run[n].owner) && !Enough(p, run[i].inUse, run[n].available)
  {
    RunInv(p, run, steps, n);
    i := SectionHistory(p, run, steps, n, run[n].owner);
  }
}
