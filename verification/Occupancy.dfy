/**
 * How full racing threads can make a size-class heap.  The load test of malloc
 * (src/include/randomheap.h:131-160) is made once, before the retry loop, and
 * inUse is raised only behind it, so that every thread may carry the heap one
 * object past the test.  The machine is that of Growth with the slots beside
 * it; a thread draws a miniheap by the mask and then a slot of that miniheap.
 */
module Occupancy {
  import opened PowersOfTwo
  import opened Log2
  import opened Growth
  import opened Placement

  /**
   * objects: what malloc has returned and free has not cleared; holds: for a
   * thread that has set a bit and not returned yet, its slot; freeing: frees
   * that have cleared a bit and not lowered inUse yet.
   */
  datatype Sys = Sys(growth: State, objects: set<Slot>, holds: seq<Slot>, freeing: nat)

  /** Attempt: the thread tries the slot its second draw selects in the miniheap of its first. */
  datatype Event = Access(step: Step) | Attempt(t: nat, draw: nat) | ClearBit(slot: Slot)

  /** Slots held by threads that have yet to count them. */
  function Held(pcs: seq<Pc>, holds: seq<Slot>): set<Slot> {
    set t | 0 <= t < |pcs| && t < |holds| && pcs[t].CountUp? :: holds[t]
  }

  /** The bits that are set. */
  function Bits(s: Sys): set<Slot> {
    s.objects + Held(s.growth.pcs, s.holds)
  }

  /** The slot of miniheap i that a draw selects. */
  function Drawn(p: Params, i: nat, draw: nat): Slot
    requires p.minObjects > 0
  {
    SizeIsScaledWidth(p, i);
    Slot(i, draw % MiniHeapSize(p, i))
  }

  predicate CanHappen(p: Params, s: Sys, e: Event) {
    && p.minObjects > 0 && |s.holds| == |s.growth.pcs|
    && match e
       case Access(step) =>
         && Enabled(s.growth, step) && !step.Collide? && (step.Move? ==> !s.growth.pcs[step.t].Place?)
         && (step.LowerInUse? ==> s.freeing > 0)
       case Attempt(t, _) => t < |s.growth.pcs| && s.growth.pcs[t].Place?
       case ClearBit(slot) => slot in s.objects
  }

  function After(p: Params, s: Sys, e: Event): Sys
    requires CanHappen(p, s, e)
  {
    match e
    case Access(step) =>
      var counted := step.Move? && s.growth.pcs[step.t].CountUp?;
      s.(growth := Apply(p, s.growth, step), objects := s.objects + (if counted then {s.holds[step.t]} else {}),
         freeing := s.freeing - if step.LowerInUse? then 1 else 0)
    case Attempt(t, draw) =>
      var slot := Drawn(p, s.growth.pcs[t].index, draw);
      if slot in Bits(s) then s.(growth := Apply(p, s.growth, Collide(t)))
      else s.(growth := Apply(p, s.growth, Move(t, draw)), holds := s.holds[t := slot])
    case ClearBit(slot) => s.(objects := s.objects - {slot}, freeing := s.freeing + 1)
  }

  ghost predicate Starts(s: Sys) {
    Init(s.growth) && |s.holds| == |s.growth.pcs| && s.objects == {} && s.freeing == 0
  }

  ghost predicate IsHistory(p: Params, run: seq<Sys>, events: seq<Event>) {
    && |run| == |events| + 1 && Starts(run[0])
    && forall i {:trigger events[i]} :: 0 <= i < |events| ==>
         CanHappen(p, run[i], events[i]) && run[i + 1] == After(p, run[i], events[i])
  }

  // ---------------------------------------------------------------------
  // The bound
  // ---------------------------------------------------------------------

  /** The thread has passed the load test, or will if there is then this much space. */
  predicate Going(p: Params, available: nat, pc: Pc) {
    match pc
    case FastAvailable(n) => Enough(p, n, available)
    case LoopAvailable(n) => Enough(p, n, available)
    case _ => pc.Pick? || pc.Place? || pc.CountUp?
  }

  function Count(p: Params, available: nat, pcs: seq<Pc>): (n: nat)
    ensures n <= |pcs|
  {
    if pcs == [] then 0
    else Count(p, available, pcs[..|pcs| - 1]) + if Going(p, available, pcs[|pcs| - 1]) then 1 else 0
  }

  /** Threads that hold a slot they have not counted yet. */
  function Uncounted(pcs: seq<Pc>): (n: nat)
    ensures n <= |pcs|
  {
    if pcs == [] then 0 else Uncounted(pcs[..|pcs| - 1]) + if pcs[|pcs| - 1].CountUp? then 1 else 0
  }

  lemma {:induction false} HeldSize(pcs: seq<Pc>, holds: seq<Slot>)
    ensures |Held(pcs, holds)| <= Uncounted(pcs)
  {
    if pcs == [] {
      assert Held(pcs, holds) == {};
    } else {
      var n := |pcs| - 1;
      HeldSize(pcs[..n], holds);
      var last := if n < |holds| && pcs[n].CountUp? then {holds[n]} else {};
      assert forall t | 0 <= t < n :: pcs[..n][t] == pcs[t];
      assert Held(pcs, holds) == Held(pcs[..n], holds) + last;
    }
  }

  function One(b: bool): nat {
    if b then 1 else 0
  }

  lemma {:induction false} CountAfter(p: Params, available: nat, pcs: seq<Pc>, t: nat, pc: Pc)
    requires t < |pcs|
    ensures Count(p, available, pcs[t := pc])
            == Count(p, available, pcs) - One(Going(p, available, pcs[t])) + One(Going(p, available, pc))
  {
    var n := |pcs| - 1;
    if t == n {
      assert pcs[t := pc][..n] == pcs[..n];
    } else {
      CountAfter(p, available, pcs[..n], t, pc);
      assert pcs[t := pc][..n] == pcs[..n][t := pc];
    }
  }

  /** Who holds an uncounted slot is going, and a thread that still looks for one is another. */
  lemma {:induction false} UncountedAreGoing(p: Params, available: nat, pcs: seq<Pc>)
    ensures Uncounted(pcs) <= Count(p, available, pcs)
    ensures forall t | 0 <= t < |pcs| && Looks(pcs[t]) :: Uncounted(pcs) < Count(p, available, pcs)
  {
    if pcs != [] {
      var n := |pcs| - 1;
      UncountedAreGoing(p, available, pcs[..n]);
      forall t | 0 <= t < |pcs| && Looks(pcs[t])
        ensures Uncounted(pcs) < Count(p, available, pcs)
      {
        assert t < n ==> pcs[..n][t] == pcs[t];
      }
    }
  }

  /** The thread is in malloc's retry loop. */
  predicate Looks(pc: Pc) {
    pc.Pick? || pc.Place?
  }

  /** Objects counted and threads going are fewer than the load bound and one for each thread. */
  predicate Within(p: Params, s: State, available: nat) {
    p.num * (s.inUse + Count(p, available, s.pcs)) < available * p.den + p.num * |s.pcs|
  }

  /** One access of thread t, whose program counter becomes pc, with n objects counted after it. */
  predicate Shift(p: Params, s: State, s': State, t: nat, available: nat) {
    && t < |s.pcs| == |s'.pcs| && s'.pcs == s.pcs[t := s'.pcs[t]]
    && (s'.inUse + One(Going(p, available, s'.pcs[t])) <= s.inUse + One(Going(p, available, s.pcs[t]))
        || (s'.inUse == s.inUse && Enough(p, s.inUse, available)))
  }

  lemma StepShifts(p: Params, s: State, step: Step, available: nat)
    requires Enabled(s, step) && !step.LowerInUse? && available >= s.available
    ensures Shift(p, s, Apply(p, s, step), step.t, available)
  {
    MulMonotone(s.available, available, p.den);
  }

  lemma ShiftKeeps(p: Params, s: State, s': State, t: nat, available: nat)
    requires p.num > 0 && Shift(p, s, s', t, available) && Within(p, s, available)
    ensures Within(p, s', available)
  {
    CountAfter(p, available, s.pcs, t, s'.pcs[t]);
    var load, load' := s.inUse + Count(p, available, s.pcs), s'.inUse + Count(p, available, s'.pcs);
    if load' <= load {
      MulMonotone(load', load, p.num);
    } else {
      MulMonotone(load', s.inUse + |s.pcs|, p.num);
      Distribute(s.inUse, |s.pcs|, p.num);
    }
  }

  lemma StepWithin(p: Params, s: State, step: Step, available: nat)
    requires p.num > 0 && Enabled(s, step) && available >= s.available && Within(p, s, available)
    ensures |Apply(p, s, step).pcs| == |s.pcs| && Within(p, Apply(p, s, step), available)
  {
    if step.LowerInUse? {
      var load := s.inUse + Count(p, available, s.pcs);
      MulMonotone(load - 1, load, p.num);
    } else {
      StepShifts(p, s, step, available);
      ShiftKeeps(p, s, Apply(p, s, step), step.t, available);
    }
  }

  /** Threads that hold slots hold different ones, none of them an object yet; and inUse counts the others. */
  ghost predicate SlotsOk(s: Sys) {
    && |s.holds| == |s.growth.pcs|
    && (forall t | 0 <= t < |s.holds| && s.growth.pcs[t].CountUp? :: s.holds[t] !in s.objects)
    && (forall t, u | 0 <= t < |s.holds| && 0 <= u < |s.holds|
                      && s.growth.pcs[t].CountUp? && s.growth.pcs[u].CountUp? ::
          s.holds[t] == s.holds[u] ==> t == u)
    && s.growth.inUse == |s.objects| + s.freeing
  }

  ghost predicate LoadOk(p: Params, s: State) {
    && (forall a: nat | a >= s.available :: Within(p, s, a))
    && (forall t | 0 <= t < |s.pcs| && Looks(s.pcs[t]) :: s.available > 0)
  }

  lemma LooksInSpace(p: Params, s: State, step: Step)
    requires Inv(p, s) && LoadOk(p, s) && Enabled(s, step)
    ensures var s' := Apply(p, s, step); forall t | 0 <= t < |s'.pcs| && Looks(s'.pcs[t]) :: s'.available > 0
  {
    StepIsMonotone(p, s, step);
    if !step.LowerInUse? && Looks(Apply(p, s, step).pcs[step.t]) && !Looks(s.pcs[step.t]) {
      EnoughNeedsSpace(p, s.pcs[step.t].inUse, s.available);
    }
  }

  /** n threads can bring inUse, while there is this much space, past what the test allows with twice as much. */
  ghost predicate Overtakes(p: Params, space: nat, n: nat) {
    exists v: nat :: Enough(p, v, space) && !Enough(p, v + n, 2 * space)
  }

  /** The thread is in the growth section and has not stored the mask. */
  predicate Late(pc: Pc) {
    InGrowth(pc) && !pc.CsStoreHeaps? && !pc.CsUnlock?
  }

  /** The thread that grows the heap is not one of those going, and it began when the test failed with less space. */
  ghost predicate LateOk(p: Params, s: State) {
    p.den > 0 && s.growLock && s.owner < |s.pcs| && Late(s.pcs[s.owner]) && s.heaps > 0
    && !Overtakes(p, Capacity(p, s.heaps), |s.pcs|)
    ==> WithinOthers(p, s, 2 * Capacity(p, s.heaps))
  }

  predicate WithinOthers(p: Params, s: State, available: nat) {
    |s.pcs| > 0 && p.num * (s.inUse + Count(p, available, s.pcs)) < available * p.den + p.num * (|s.pcs| - 1)
  }

  lemma {:induction false} CountWithout(p: Params, available: nat, pcs: seq<Pc>, t: nat)
    requires t < |pcs| && !Going(p, available, pcs[t])
    ensures Count(p, available, pcs) <= |pcs| - 1
  {
    if t < |pcs| - 1 { CountWithout(p, available, pcs[..|pcs| - 1], t); }
  }

  lemma NotOvertaken(p: Params, space: nat, n: nat, load: nat)
    requires p.num > 0 && space * p.den > 0 && !Overtakes(p, space, n) && p.num * load < space * p.den + p.num * n
    ensures Enough(p, load, 2 * space)
  {
    var v := if load >= n then load - n else 0;
    Distribute(v, n, p.num);
    assert Enough(p, v, space);
    assert Enough(p, v + n, 2 * space);
    MulMonotone(load, v + n, p.num);
  }

  /** With one of the threads not going, a load that passes the test bounds all of it. */
  lemma OthersFit(p: Params, s: State, available: nat, t: nat)
    requires t < |s.pcs| && !Going(p, available, s.pcs[t]) && Enough(p, s.inUse, available)
    ensures WithinOthers(p, s, available)
  {
    CountWithout(p, available, s.pcs, t);
    MulMonotone(Count(p, available, s.pcs), |s.pcs| - 1, p.num);
    Distribute(s.inUse, Count(p, available, s.pcs), p.num);
  }

  lemma LockLateOk(p: Params, s: State, t: nat, draw: nat)
    requires p.num > 0 && p.minObjects > 0 && Inv(p, s) && LoadOk(p, s) && Enabled(s, Move(t, draw))
    requires !s.growLock && (s.pcs[t].TryLock? || s.pcs[t].TryLockAgain?)
    ensures LateOk(p, Apply(p, s, Move(t, draw)))
  {
    var s', space, n := Apply(p, s, Move(t, draw)), Capacity(p, s.heaps), |s.pcs|;
    if p.den > 0 && s.heaps > 0 && !Overtakes(p, space, n) {
      MulPositive(p.minObjects, Pow2(s.heaps - 1));
      MulPositive(space, p.den);
      assert Within(p, s, s.available);
      var load := s.inUse + Count(p, space, s.pcs);
      NotOvertaken(p, space, n, load);
      MulMonotone(s.inUse, load, p.num);
      OthersFit(p, s', 2 * space, t);
    }
  }

  /** A step of another thread, or one of the growing thread that leaves inUse alone. */
  lemma KeepsOthers(p: Params, s: State, s': State, t: nat, owner: nat, available: nat)
    requires Shift(p, s, s', t, available) && owner < |s.pcs| && WithinOthers(p, s, available)
    requires !Going(p, available, s'.pcs[owner])
    ensures WithinOthers(p, s', available)
  {
    CountAfter(p, available, s.pcs, t, s'.pcs[t]);
    if s'.inUse + Count(p, available, s'.pcs) <= s.inUse + Count(p, available, s.pcs) {
      MulMonotone(s'.inUse + Count(p, available, s'.pcs), s.inUse + Count(p, available, s.pcs), p.num);
    } else {
      OthersFit(p, s', available, owner);
    }
  }

  /** In the growth section before the mask is stored, there is the old space or twice that. */
  lemma LateSpace(p: Params, s: State)
    requires Inv(p, s) && s.growLock && Late(s.pcs[s.owner]) && s.heaps > 0
    ensures s.available <= 2 * Capacity(p, s.heaps) == Capacity(p, s.heaps + 1)
  {
    var pc := s.pcs[s.owner];
    assert InGrowth(pc) && GrowthOk(p, s, pc);
    CapacityGrows(p, s.heaps);
  }

  lemma LateStep(p: Params, s: State, step: Step)
    requires p.num > 0 && Inv(p, s) && Enabled(s, step) && s.growLock && s.heaps > 0
    requires WithinOthers(p, s, 2 * Capacity(p, s.heaps)) && Late(s.pcs[s.owner])
    ensures var s' := Apply(p, s, step);
            s'.growLock && Late(s'.pcs[s'.owner]) ==>
              s'.heaps == s.heaps && WithinOthers(p, s', 2 * Capacity(p, s.heaps))
  {
    var s', a := Apply(p, s, step), 2 * Capacity(p, s.heaps);
    LateSpace(p, s);
    if step.LowerInUse? {
      MulMonotone(s'.inUse + Count(p, a, s.pcs), s.inUse + Count(p, a, s.pcs), p.num);
    } else if s'.growLock && Late(s'.pcs[s'.owner]) {
      StepShifts(p, s, step, a);
      KeepsOthers(p, s, s', step.t, s.owner, a);
    }
  }

  lemma StepLateOk(p: Params, s: State, step: Step)
    requires p.num > 0 && p.minObjects > 0 && Inv(p, s) && LoadOk(p, s) && LateOk(p, s) && Enabled(s, step)
    ensures LateOk(p, Apply(p, s, step))
  {
    if s.growLock {
      if p.den > 0 && Late(s.pcs[s.owner]) && s.heaps > 0 && !Overtakes(p, Capacity(p, s.heaps), |s.pcs|) {
        LateStep(p, s, step);
      }
      LateStaysLate(p, s, step);
    } else if step.Move? && (s.pcs[step.t].TryLock? || s.pcs[step.t].TryLockAgain?) {
      LockLateOk(p, s, step.t, step.draw);
    }
  }

  lemma LateStaysLate(p: Params, s: State, step: Step)
    requires Inv(p, s) && Enabled(s, step) && s.growLock
    ensures var s' := Apply(p, s, step);
            s'.growLock && Late(s'.pcs[s'.owner]) ==>
              s'.owner == s.owner && s'.heaps == s.heaps && |s'.pcs| == |s.pcs| && Late(s.pcs[s.owner])
  {
  }

  ghost predicate SysInv(p: Params, s: Sys) {
    Inv(p, s.growth) && LoadOk(p, s.growth) && SlotsOk(s) && LateOk(p, s.growth)
  }

  lemma StepLoadOk(p: Params, s: State, step: Step)
    requires p.num > 0 && Inv(p, s) && LoadOk(p, s) && Enabled(s, step)
    ensures LoadOk(p, Apply(p, s, step)) && |Apply(p, s, step).pcs| == |s.pcs|
  {
    StepIsMonotone(p, s, step);
    LooksInSpace(p, s, step);
    StepWithin(p, s, step, s.available);
    forall a: nat | a >= Apply(p, s, step).available
      ensures Within(p, Apply(p, s, step), a)
    {
      StepWithin(p, s, step, a);
    }
  }

  /** What a step other than lowering inUse does to its thread. */
  lemma StepCounts(p: Params, s: State, step: Step)
    requires Enabled(s, step) && !step.LowerInUse?
    ensures var s', t := Apply(p, s, step), step.t;
            && t < |s.pcs| == |s'.pcs| && s'.pcs == s.pcs[t := s'.pcs[t]]
            && (s'.pcs[t].CountUp? <==> step.Move? && s.pcs[t].Place?)
            && s'.inUse == s.inUse + One(step.Move? && s.pcs[t].CountUp?)
            && (s.pcs[t].CountUp? ==> step.Move?)
  {
  }

  lemma AccessSlots(p: Params, s: Sys, step: Step)
    requires CanHappen(p, s, Access(step)) && SlotsOk(s)
    ensures SlotsOk(After(p, s, Access(step)))
  {
    if !step.LowerInUse? { StepCounts(p, s.growth, step); }
  }

  lemma AttemptSlots(p: Params, s: Sys, t: nat, draw: nat)
    requires CanHappen(p, s, Attempt(t, draw)) && SlotsOk(s)
    ensures SlotsOk(After(p, s, Attempt(t, draw)))
  {
    StepCounts(p, s.growth, Move(t, draw));
    StepCounts(p, s.growth, Collide(t));
    var slot := Drawn(p, s.growth.pcs[t].index, draw);
    forall u | 0 <= u < |s.holds| && s.growth.pcs[u].CountUp?
      ensures s.holds[u] in Bits(s)
    {
    }
  }

  /** The step of the growth machine behind an event, if there is one. */
  function StepOf(p: Params, s: Sys, e: Event): (step: Step)
    requires CanHappen(p, s, e) && !e.ClearBit?
    ensures Enabled(s.growth, step) && After(p, s, e).growth == Apply(p, s.growth, step)
  {
    if e.Access? then e.step
    else if Drawn(p, s.growth.pcs[e.t].index, e.draw) in Bits(s) then Collide(e.t)
    else Move(e.t, e.draw)
  }

  lemma EventKeeps(p: Params, s: Sys, e: Event)
    requires p.num > 0 && SysInv(p, s) && CanHappen(p, s, e)
    ensures SysInv(p, After(p, s, e)) && |After(p, s, e).growth.pcs| == |s.growth.pcs|
  {
    if e.Access? { AccessSlots(p, s, e.step); }
    if e.Attempt? { AttemptSlots(p, s, e.t, e.draw); }
    if !e.ClearBit? {
      StepInv(p, s.growth, StepOf(p, s, e));
      StepLoadOk(p, s.growth, StepOf(p, s, e));
      StepLateOk(p, s.growth, StepOf(p, s, e));
    }
  }

  lemma {:induction false} NobodyGoing(p: Params, available: nat, pcs: seq<Pc>)
    requires forall t :: 0 <= t < |pcs| ==> pcs[t] == Idle
    ensures Count(p, available, pcs) == 0
  {
    if pcs != [] { NobodyGoing(p, available, pcs[..|pcs| - 1]); }
  }

  lemma StartKeeps(p: Params, s: Sys)
    requires p.num > 0 && Starts(s) && |s.growth.pcs| > 0
    ensures SysInv(p, s)
  {
    MulPositive(p.num, |s.growth.pcs|);
    forall a: nat
      ensures Within(p, s.growth, a)
    {
      NobodyGoing(p, a, s.growth.pcs);
    }
  }

  lemma {:induction false} RunKeeps(p: Params, run: seq<Sys>, events: seq<Event>, n: nat)
    requires p.num > 0 && IsHistory(p, run, events) && |run[0].growth.pcs| > 0 && n < |run|
    ensures SysInv(p, run[n]) && |run[n].growth.pcs| == |run[0].growth.pcs|
  {
    if n == 0 {
      StartKeeps(p, run[0]);
    } else {
      RunKeeps(p, run, events, n - 1);
      assert CanHappen(p, run[n - 1], events[n - 1]);
      EventKeeps(p, run[n - 1], events[n - 1]);
    }
  }

  lemma BitsSize(s: Sys)
    requires SlotsOk(s)
    ensures |Bits(s)| + s.freeing <= s.growth.inUse + Uncounted(s.growth.pcs)
  {
    HeldSize(s.growth.pcs, s.holds);
    UnionSize(s.objects, Held(s.growth.pcs, s.holds));
  }

  lemma UnionSize<T>(a: set<T>, b: set<T>)
    ensures |a + b| <= |a| + |b|
  {
    assert a + b == a + (b - a);
    assert b == (b - a) + (b * a);
  }

  /** In every interleaving, n threads carry the heap past the load bound by less than n objects. */
  lemma OccupancyBounded(p: Params, run: seq<Sys>, events: seq<Event>, n: nat)
    requires p.num > 0 && IsHistory(p, run, events) && |run[0].growth.pcs| > 0 && n < |run|
    ensures var s := run[n];
            p.num * (|Bits(s)| + s.freeing) < s.growth.available * p.den + p.num * |run[0].growth.pcs|
  {
    RunKeeps(p, run, events, n);
    var s := run[n].growth;
    BitsSize(run[n]);
    UncountedAreGoing(p, s.available, s.pcs);
    assert Within(p, s, s.available);
    MulMonotone(|Bits(run[n])| + run[n].freeing, s.inUse + Count(p, s.available, s.pcs), p.num);
  }

  /** inUse is never lowered below zero: it counts the objects the program has and those being freed. */
  lemma InUseCounts(p: Params, run: seq<Sys>, events: seq<Event>, n: nat)
    requires p.num > 0 && IsHistory(p, run, events) && |run[0].growth.pcs| > 0 && n < |run|
    ensures run[n].growth.inUse == |run[n].objects| + run[n].freeing
  {
    RunKeeps(p, run, events, n);
  }

  // ---------------------------------------------------------------------
  // When a free slot can be drawn
  // ---------------------------------------------------------------------

  /** The slots of the first k miniheaps. */
  ghost function Slots(p: Params, k: nat): set<Slot> {
    if k == 0 then {} else Slots(p, k - 1) + Row(k - 1, MiniHeapSize(p, k - 1))
  }

  ghost function Row(i: nat, n: nat): set<Slot> {
    set j: nat | j < n :: Slot(i, j)
  }

  lemma {:induction false} RowSize(i: nat, n: nat)
    ensures |Row(i, n)| == n
  {
    if n == 0 {
      assert Row(i, n) == {};
    } else {
      RowSize(i, n - 1);
      assert Row(i, n) == Row(i, n - 1) + {Slot(i, n - 1)};
    }
  }

  lemma {:induction false} SlotsAre(p: Params, k: nat)
    ensures forall s :: s in Slots(p, k) <==> s.heap < k && s.index < MiniHeapSize(p, s.heap)
  {
    if k > 0 { SlotsAre(p, k - 1); }
  }

  lemma SlotsSize(p: Params, k: nat)
    ensures |Slots(p, k)| == Capacity(p, k)
  {
    SlotsAddUp(p, k);
    CapacityIsTotalSize(p, k);
  }

  lemma {:induction false} SlotsAddUp(p: Params, k: nat)
    ensures |Slots(p, k)| == TotalSize(p, k)
  {
    if k > 0 {
      var n := MiniHeapSize(p, k - 1);
      SlotsAddUp(p, k - 1);
      RowIsNew(p, k - 1, n);
      RowSize(k - 1, n);
      DisjointSize(Slots(p, k - 1), Row(k - 1, n));
    }
  }

  lemma RowIsNew(p: Params, k: nat, n: nat)
    ensures Slots(p, k) !! Row(k, n)
  {
    SlotsAre(p, k);
  }

  lemma DisjointSize<T>(a: set<T>, b: set<T>)
    requires a !! b
    ensures |a + b| == |a| + |b|
  {
  }

  /** The slot two draws select under a mask. */
  function Selected(p: Params, chunks: nat, a: nat, b: nat): Slot
    requires p.minObjects > 0
  {
    Drawn(p, Index(a, chunks), b)
  }

  /** The mask for k miniheaps lets a thread draw exactly their slots. */
  lemma SelectedIff(p: Params, k: nat, s: Slot)
    requires p.minObjects > 0 && k > 0
    ensures s in Slots(p, k) <==> exists a: nat, b: nat :: Selected(p, Chunks(k), a, b) == s
  {
    SlotsAre(p, k);
    if s in Slots(p, k) {
      var a, b := DrawsFor(p, k, s);
    }
    forall a: nat, b: nat
      ensures Selected(p, Chunks(k), a, b) in Slots(p, k)
    {
      LandsActive(p, k - 1, a, b);
    }
  }

  lemma DrawsFor(p: Params, k: nat, s: Slot) returns (a: nat, b: nat)
    requires p.minObjects > 0 && s.heap < k && s.index < MiniHeapSize(p, s.heap)
    ensures Selected(p, Chunks(k), a, b) == s
  {
    a, b := Pow2(s.heap) - 1, s.index;
    Pow2Monotone(s.heap, k - 1);
    DivModUnique(a, Pow2(k - 1), 0, a);
    DivModUnique(b, MiniHeapSize(p, s.heap), 0, b);
    CeilLog2OfPower(s.heap);
  }

  lemma CeilLog2OfPower(i: nat)
    ensures CeilLog2(Pow2(i)) == i
  {
    if i > 0 {
      Pow2Strict(i - 1, i);
      CeilLog2At(i, Pow2(i));
    } else {
      CeilLog2Correct(1);
    }
  }

  /** Some pair of draws under the present mask selects a free slot. */
  ghost predicate CanFind(p: Params, s: Sys)
    requires p.minObjects > 0
  {
    exists a: nat, b: nat :: Selected(p, s.growth.chunks, a, b) !in Bits(s)
  }

  lemma FewerBitsThanSlots(p: Params, s: Sys, k: nat)
    requires p.minObjects > 0 && k > 0 && s.growth.chunks == Chunks(k) && |Bits(s)| < Capacity(p, k)
    ensures CanFind(p, s)
  {
    SlotsAre(p, k);
    SlotsSize(p, k);
    if Slots(p, k) <= Bits(s) { SubsetSize(Slots(p, k), Bits(s)); }
    var slot :| slot in Slots(p, k) && slot !in Bits(s);
    var a, b := DrawsFor(p, k, slot);
    assert Selected(p, s.growth.chunks, a, b) !in Bits(s);
  }

  lemma SubsetSize<T>(a: set<T>, b: set<T>)
    requires a <= b
    ensures |a| <= |b|
  {
    assert b == a + (b - a);
  }

  /** A miniheap more is counted in available, and the mask does not select it yet. */
  predicate BetweenStores(s: State) {
    s.growLock && s.owner < |s.pcs| && s.pcs[s.owner].CsStoreChunks? && s.pcs[s.owner].heaps > 0
  }

  /** Except there, space and mask belong to the same number of miniheaps. */
  lemma MaskCoversSpace(p: Params, s: State, t: nat) returns (k: nat)
    requires Inv(p, s) && LoadOk(p, s) && t < |s.pcs| && Looks(s.pcs[t])
    ensures k > 0 && s.chunks == Chunks(k)
    ensures s.available == if BetweenStores(s) then Capacity(p, k + 1) else Capacity(p, k)
    ensures BetweenStores(s) ==> k == s.pcs[s.owner].heaps == s.heaps
  {
    assert s.available > 0;
    k := s.heaps;
    if s.growLock {
      var pc := s.pcs[s.owner];
      assert InGrowth(pc) && GrowthOk(p, s, pc);
      if pc.CsStoreHeaps? || (pc.CsStoreChunks? && pc.heaps == 0) { k := pc.heaps + 1; }
    }
  }

  /** How few threads there must be for a heap with so much space to keep a slot free for each that looks for one. */
  predicate Spacious(p: Params, available: nat, threads: nat) {
    threads > 0 && available * p.den + p.num * (threads - 1) <= available * p.num
  }

  /** With room slots to draw from and load at level space, fewer than room are taken. */
  lemma OneIsLeft(p: Params, taken: nat, load: nat, space: nat, threads: nat, room: nat)
    requires p.num > 0 && threads > 0 && taken < load && p.num * load < space * p.den + p.num * threads
    requires space * p.den + p.num * (threads - 1) <= room * p.num
    ensures taken < room
  {
    MulMonotone(taken + 1, load, p.num);
    Distribute(taken, 1, p.num);
    Distribute(threads - 1, 1, p.num);
    if taken >= room { MulMonotone(room, taken, p.num); }
  }

  lemma LookerIsGoing(p: Params, s: Sys, t: nat, available: nat)
    requires SlotsOk(s) && t < |s.growth.pcs| && Looks(s.growth.pcs[t])
    ensures |Bits(s)| < s.growth.inUse + Count(p, available, s.growth.pcs)
  {
    BitsSize(s);
    UncountedAreGoing(p, available, s.growth.pcs);
  }

  /** Outside that window, in a heap spacious for so many threads, whoever looks for a slot can draw a free one. */
  lemma FreeSlotIsLeft(p: Params, run: seq<Sys>, events: seq<Event>, n: nat, t: nat)
    requires p.num > 0 && p.den > 0 && p.minObjects > 0 && IsHistory(p, run, events) && n < |run|
    requires t < |run[n].growth.pcs| == |run[0].growth.pcs| && Looks(run[n].growth.pcs[t])
    requires !BetweenStores(run[n].growth) && Spacious(p, run[n].growth.available, |run[0].growth.pcs|)
    ensures CanFind(p, run[n])
  {
    RunKeeps(p, run, events, n);
    var s, threads := run[n], |run[0].growth.pcs|;
    var k := MaskCoversSpace(p, s.growth, t);
    LookerIsGoing(p, s, t, s.growth.available);
    assert Within(p, s.growth, s.growth.available);
    OneIsLeft(p, |Bits(s)|, s.growth.inUse + Count(p, s.growth.available, s.growth.pcs), s.growth.available, threads,
              s.growth.available);
    FewerBitsThanSlots(p, s, k);
  }

  // ---------------------------------------------------------------------
  // Between the two stores
  // ---------------------------------------------------------------------

  /**
   * With space doubled and the mask as before, n threads, of which one is
   * between the stores, can take every slot the mask selects: from a load that
   * the new test allows, or from one more if they can overtake it before.
   */
  ghost predicate TooTight(p: Params, space: nat, n: nat) {
    && n >= 2
    && (2 * space * p.den + p.num * (n - 2) > space * p.num
        || (2 * space * p.den + p.num * (n - 1) > space * p.num && Overtakes(p, space, n)))
  }

  /** Between the stores, unless it is too tight for so many threads, whoever looks for a slot can draw a free one. */
  lemma FreeSlotIsLeftInside(p: Params, run: seq<Sys>, events: seq<Event>, n: nat, t: nat)
    requires p.num > 0 && p.den > 0 && p.minObjects > 0 && IsHistory(p, run, events) && n < |run|
    requires t < |run[n].growth.pcs| == |run[0].growth.pcs| && Looks(run[n].growth.pcs[t])
    requires BetweenStores(run[n].growth)
    requires !TooTight(p, Capacity(p, run[n].growth.heaps), |run[0].growth.pcs|)
    ensures CanFind(p, run[n])
  {
    RunKeeps(p, run, events, n);
    var s, threads, room := run[n], |run[0].growth.pcs|, Capacity(p, run[n].growth.heaps);
    var k := MaskCoversSpace(p, s.growth, t);
    assert s.growth.owner != t;
    LookerIsGoing(p, s, t, 2 * room);
    LateSpace(p, s.growth);
    var load := s.growth.inUse + Count(p, 2 * room, s.growth.pcs);
    if 2 * room * p.den + p.num * (threads - 1) <= room * p.num {
      assert Within(p, s.growth, 2 * room);
      OneIsLeft(p, |Bits(s)|, load, 2 * room, threads, room);
    } else {
      assert WithinOthers(p, s.growth, 2 * room);
      OneIsLeft(p, |Bits(s)|, load, 2 * room, threads - 1, room);
    }
    FewerBitsThanSlots(p, s, k);
  }
}
