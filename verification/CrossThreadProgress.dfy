/**
 * Progress of cross-thread frees (src/include/objectownership.h,
 * src/include/heapregistry.h and src/include/globalfreepool.h): in every
 * reachable state, whatever the other threads are in the middle of, a thread
 * that is left to run registers, finds the owner of the object it frees, ends
 * its free, and ends its malloc when its heap has a free slot.
 */
module CrossThreadProgress {
  import opened CrossThread
  import Q = FreeQueue

  /** A weak compare-and-swap that fails although the value is the expected one. */
  predicate Spurious(step: Step) {
    match step
    case Local(_, spurious) => spurious
    case Push(_, qs) => qs.PushCas? && qs.spurious
    case _ => false
  }

  /** A step that thread t can take on the operation it is in the middle of. */
  predicate Own(s: Sys, t: nat, step: Step) {
    step.t == t && !step.BeginMalloc? && !step.BeginFree? && !Spurious(step) && Enabled(s, step)
  }

  datatype Goal =
    | Registered(op: Op)        // doRegister is done
    | AtOwner(ptr: Ptr)         // findOwner is done
    | Done(ptr: Ptr)            // free is done
    | Returned                  // malloc is done

  ghost predicate Met(s: Sys, t: nat, g: Goal) {
    && t < |s.threads| == |s.registered|
    && var thread := s.threads[t];
       match g
       case Registered(op) => thread.pc == Resume(op) && thread.known && s.registered[t] && t < s.maxId
       case AtOwner(p) => p in s.home && thread.pc == StartPush(p, s.home[p])
       case Done(p) =>
         && thread.pc == Idle
         && (p !in s.bits
             || (p in s.place && (s.place[p] == Dropped
                                  || (p in s.home && s.place[p].Queued? && s.place[p].owner == s.home[p]))))
       case Returned => thread.pc == Idle
  }

  /**
   * Whatever steps of its own thread t takes from s, the goal is met after at
   * most n of them, and until then there is one to take.
   */
  ghost predicate Leads(s: Sys, t: nat, g: Goal, n: nat)
    decreases n
  {
    Met(s, t, g)
    || (n > 0
        && (exists step :: Own(s, t, step))
        && forall step | Own(s, t, step) :: Leads(Apply(s, step), t, g, n - 1))
  }

  /** Thread t has this step to take and no other. */
  ghost predicate Only(s: Sys, t: nat, next: Step) {
    Own(s, t, next) && forall step | Own(s, t, step) :: step == next
  }

  lemma OneStepMore(s: Sys, t: nat, g: Goal, n: nat, next: Step)
    requires Only(s, t, next) && Leads(Apply(s, next), t, g, n)
    ensures Leads(s, t, g, n + 1)
  {
  }

  lemma ShapeOk(s: Sys)
    requires Inv(s)
    ensures Shape(s)
  {
  }

  // ---------------------------------------------------------------------
  // Registration
  // ---------------------------------------------------------------------

  /** The operation that a registering thread will go on with. */
  predicate Registers(s: Sys, t: nat, op: Op) {
    t < |s.threads| &&
    match s.threads[t].pc
    case RegStore(o) => o == op
    case RegLoad(o) => o == op
    case RegCas(o, _) => o == op
    case _ => false
  }

  /** How many steps of its own a thread needs to have registered. */
  function ToRegister(s: Sys, t: nat): nat
    requires t < |s.threads|
  {
    match s.threads[t].pc
    case RegStore(_) => 5
    case RegLoad(_) => 4
    case RegCas(_, oldMax) =>
      if oldMax >= t + 1 then 1 else if s.maxId == oldMax then 3 else if s.maxId >= t + 1 then 2 else 4
    case _ => 0
  }

  lemma RegistrationStep(s: Sys, t: nat, op: Op)
    requires Inv(s) && Registers(s, t, op)
    ensures Only(s, t, Local(t, false)) && ToRegister(s, t) > 0
    ensures var s' := Apply(s, Local(t, false));
            Met(s', t, Registered(op)) || (Registers(s', t, op) && ToRegister(s', t) < ToRegister(s, t))
  {
    ShapeOk(s);
    assert ThreadOk(s, t);
    assert ThreadOk(Apply(s, Local(t, false)), t) by { StepInv(s, Local(t, false)); }
  }

  lemma {:induction false} RegistrationLeads(s: Sys, t: nat, op: Op, n: nat)
    requires Inv(s) && Registers(s, t, op) && n >= ToRegister(s, t)
    ensures Leads(s, t, Registered(op), n)
    decreases n
  {
    RegistrationStep(s, t, op);
    var s' := Apply(s, Local(t, false));
    if !Met(s', t, Registered(op)) {
      StepInv(s, Local(t, false));
      RegistrationLeads(s', t, op, n - 1);
    }
    OneStepMore(s, t, Registered(op), n - 1, Local(t, false));
  }

  // ---------------------------------------------------------------------
  // The search for the owner
  // ---------------------------------------------------------------------

  /** One look at an entry. */
  lemma SearchStep(s: Sys, t: nat, p: Ptr, i: nat, max: nat)
    requires Inv(s) && t < |s.threads| && s.threads[t].pc == Find(p, i, max)
    ensures i < max && Only(s, t, Local(t, false))
    ensures var s' := Apply(s, Local(t, false));
            |s'.threads| == |s.threads| && (Met(s', t, AtOwner(p)) || s'.threads[t].pc == Find(p, i + 1, max))
  {
    ShapeOk(s);
    BusyOk(s, t);
    assert ThreadOk(s, t);
  }

  lemma {:induction false} SearchLeads(s: Sys, t: nat, p: Ptr, i: nat, max: nat)
    requires Inv(s) && t < |s.threads| && s.threads[t].pc == Find(p, i, max)
    ensures i < max && Leads(s, t, AtOwner(p), max - i)
    decreases |s.threads| + max - i
  {
    SearchStep(s, t, p, i, max);
    var s' := Apply(s, Local(t, false));
    if s'.threads[t].pc == Find(p, i + 1, max) {
      StepInv(s, Local(t, false));
      SearchLeads(s', t, p, i + 1, max);
    }
    OneStepMore(s, t, AtOwner(p), max - i - 1, Local(t, false));
  }

  lemma FindMaxStep(s: Sys, t: nat, p: Ptr)
    requires Inv(s) && t < |s.threads| && s.threads[t].pc == FindMax(p)
    ensures Only(s, t, Local(t, false))
    ensures var s' := Apply(s, Local(t, false));
            |s'.threads| == |s.threads| && s'.threads[t].pc == Find(p, 0, s.maxId)
  {
    ShapeOk(s);
  }

  lemma SearchLeadsFromMax(s: Sys, t: nat, p: Ptr)
    requires Inv(s) && t < |s.threads| && s.threads[t].pc == FindMax(p)
    ensures Leads(s, t, AtOwner(p), s.maxId + 1)
  {
    FindMaxStep(s, t, p);
    var s' := Apply(s, Local(t, false));
    StepInv(s, Local(t, false));
    SearchLeads(s', t, p, 0, s.maxId);
    OneStepMore(s, t, AtOwner(p), s.maxId, Local(t, false));
  }

  // ---------------------------------------------------------------------
  // The end of a free
  // ---------------------------------------------------------------------

  /** Thread t has claimed a ticket for p and has yet to write it. */
  predicate Stores(s: Sys, t: nat, p: Ptr)
    requires t < |s.threads|
  {
    match s.threads[t].pc
    case Pushing(o) =>
      o < |s.queues| && t < |s.queues[o].producers|
      && s.queues[o].producers[t].Store? && s.queues[o].producers[t].ptr == p
    case _ => false
  }

  /** The queue of p's owner can count one more ticket without wrapping around. */
  predicate Room(s: Sys, p: Ptr) {
    && p in s.home && s.home[p] < |s.queues|
    && s.queues[s.home[p]].head + s.queues[s.home[p]].cap < Q.SIZE_MODULUS
  }

  /** Thread t is inside free with p. */
  predicate Freeing(s: Sys, t: nat, p: Ptr) {
    t < |s.threads| && (Carries(s, t, p) || Stores(s, t, p))
  }

  /** How many steps of its own a push still needs. */
  function ToEndPush(q: Q.State, pc: Q.Producer): nat {
    match pc
    case Idle => 0
    case LoadHead(_) => 4
    case LoadTail(_, head) => if head == q.head then 3 else 5
    case Cas(_, head) => if head == q.head then 2 else 4
    case Store(_, _) => 1
  }

  /** How many steps a free needs from the load of the maximum id on, once thread t has registered. */
  function FromSearch(s: Sys, t: nat): nat {
    (if s.maxId > t then s.maxId else t + 1) + 6
  }

  /** At most how many steps of its own a free still needs. */
  function ToEndFree(s: Sys, t: nat): nat
    requires t < |s.threads|
  {
    match s.threads[t].pc
    case TryOwn(_) => FromSearch(s, t) + 6
    case RegStore(_) => FromSearch(s, t) + 5
    case RegLoad(_) => FromSearch(s, t) + 4
    case RegCas(_, _) => FromSearch(s, t) + ToRegister(s, t)
    case FindMax(_) => FromSearch(s, t)
    case Find(_, i, max) => if i <= max then max - i + 5 else 0
    case StartPush(_, _) => 5
    case Pushing(o) =>
      if o < |s.queues| && t < |s.queues[o].producers| then ToEndPush(s.queues[o], s.queues[o].producers[t]) else 0
    case _ => 0
  }

  /** Thread t is inside free with p, and if p's owner has yet to be told, its queue has room for a ticket. */
  predicate CanEndFree(s: Sys, t: nat, p: Ptr) {
    Freeing(s, t, p) && (Carries(s, t, p) ==> Room(s, p))
  }

  /** After a step from s to s' thread t has ended its free of p, or is nearer to its end. */
  ghost predicate FreeAdvances(s: Sys, s': Sys, t: nat, p: Ptr)
    requires t < |s.threads|
  {
    || Met(s', t, Done(p))
    || (CanEndFree(s', t, p) && ToEndFree(s', t) < ToEndFree(s, t))
  }

  /** Outside the queues a thread inside free has one step to take. */
  lemma OnlyLocal(s: Sys, t: nat, p: Ptr)
    requires Inv(s) && t < |s.threads| && Busy(s.threads[t].pc) == p != Q.NULL && !s.threads[t].pc.StartPush?
    ensures Own(s, t, Local(t, false))
    ensures forall step | Own(s, t, step) :: step == Local(t, false)
  {
    ShapeOk(s);
    assert ThreadOk(s, t);
  }

  lemma TryOwnAdvances(s: Sys, t: nat, p: Ptr)
    requires Inv(s) && CanEndFree(s, t, p) && s.threads[t].pc.TryOwn? && Enabled(s, Local(t, false))
    ensures FreeAdvances(s, Apply(s, Local(t, false)), t, p)
  {
  }

  lemma RegisteringAdvances(s: Sys, t: nat, p: Ptr)
    requires Inv(s) && CanEndFree(s, t, p) && Registers(s, t, FreeOp(p)) && Enabled(s, Local(t, false))
    ensures FreeAdvances(s, Apply(s, Local(t, false)), t, p)
  {
  }

  lemma SearchAdvances(s: Sys, t: nat, p: Ptr)
    requires Inv(s) && CanEndFree(s, t, p) && Enabled(s, Local(t, false))
    requires s.threads[t].pc.FindMax? || s.threads[t].pc.Find?
    ensures FreeAdvances(s, Apply(s, Local(t, false)), t, p)
  {
    BusyOk(s, t);
    assert ThreadOk(s, t);
  }

  lemma FreeLocalStep(s: Sys, t: nat, p: Ptr)
    requires Inv(s) && CanEndFree(s, t, p) && !s.threads[t].pc.StartPush? && !s.threads[t].pc.Pushing?
    ensures Own(s, t, Local(t, false)) && FreeAdvances(s, Apply(s, Local(t, false)), t, p)
    ensures forall step | Own(s, t, step) :: step == Local(t, false)
  {
    CarriedOwner(s, t, p);
    OnlyLocal(s, t, p);
    assert ThreadOk(s, t);
    if s.threads[t].pc.TryOwn? {
      TryOwnAdvances(s, t, p);
    } else if Registers(s, t, FreeOp(p)) {
      RegisteringAdvances(s, t, p);
    } else {
      SearchAdvances(s, t, p);
    }
  }

  /** The step of push that thread t is at. */
  function NextPush(t: nat, ptr: Ptr, pc: Q.Producer): Q.Step {
    match pc
    case Idle => Q.StartPush(t, ptr)
    case LoadHead(_) => Q.PushLoadHead(t)
    case LoadTail(_, _) => Q.PushLoadTail(t)
    case Cas(_, _) => Q.PushCas(t, false)
    case Store(_, _) => Q.PushStore(t)
  }

  lemma FreeStartStep(s: Sys, t: nat, p: Ptr, o: nat)
    requires Inv(s) && CanEndFree(s, t, p) && s.threads[t].pc == StartPush(p, o)
    ensures Own(s, t, Push(t, Q.StartPush(t, p))) && FreeAdvances(s, Apply(s, Push(t, Q.StartPush(t, p))), t, p)
    ensures forall step | Own(s, t, step) :: step == Push(t, Q.StartPush(t, p))
  {
    ShapeOk(s);
    BusyOk(s, t);
    assert ThreadOk(s, t) && ProducerOk(s, t, o);
  }

  lemma OnlyPush(s: Sys, t: nat, p: Ptr, o: nat)
    requires Inv(s) && CanEndFree(s, t, p) && s.threads[t].pc == Pushing(o)
    ensures o < |s.queues| && t < |s.queues[o].producers|
    ensures var step := Push(t, NextPush(t, p, s.queues[o].producers[t]));
            Own(s, t, step) && forall step' | Own(s, t, step') :: step' == step
  {
    ShapeOk(s);
    assert ThreadOk(s, t) && ProducerOk(s, t, o);
    assert Q.Inv(s.queues[o]) && Q.ProducerOk(s.queues[o], t);
  }

  /** A step of push that does not return. */
  lemma PushAdvances(s: Sys, t: nat, p: Ptr, o: nat, qs: Q.Step)
    requires Inv(s) && CanEndFree(s, t, p) && s.threads[t].pc == Pushing(o)
    requires Enabled(s, Push(t, qs)) && qs == NextPush(t, p, s.queues[o].producers[t])
    requires o < |Apply(s, Push(t, qs)).queues| && Apply(s, Push(t, qs)).queues[o].producers[t] != Q.Idle
    ensures FreeAdvances(s, Apply(s, Push(t, qs)), t, p)
  {
    assert ThreadOk(s, t) && ProducerOk(s, t, o);
    assert Q.ProducerOk(s.queues[o], t);
  }

  /** A step of push that returns: the object was queued earlier, or is dropped now. */
  lemma PushReturns(s: Sys, t: nat, p: Ptr, o: nat, qs: Q.Step)
    requires Inv(s) && CanEndFree(s, t, p) && s.threads[t].pc == Pushing(o)
    requires Enabled(s, Push(t, qs)) && qs == NextPush(t, p, s.queues[o].producers[t])
    requires o < |Apply(s, Push(t, qs)).queues| && Apply(s, Push(t, qs)).queues[o].producers[t] == Q.Idle
    ensures Met(Apply(s, Push(t, qs)), t, Done(p))
  {
    assert ThreadOk(s, t) && ProducerOk(s, t, o);
    assert Q.ProducerOk(s.queues[o], t);
    if s.queues[o].producers[t].Store? { assert WaitingOk(s, o, s.queues[o].producers[t].ticket); }
  }

  lemma FreePushStep(s: Sys, t: nat, p: Ptr, o: nat)
    requires Inv(s) && CanEndFree(s, t, p) && s.threads[t].pc == Pushing(o)
    ensures o < |s.queues| && t < |s.queues[o].producers|
    ensures var step := Push(t, NextPush(t, p, s.queues[o].producers[t]));
            && Own(s, t, step) && FreeAdvances(s, Apply(s, step), t, p)
            && forall step' | Own(s, t, step') :: step' == step
  {
    OnlyPush(s, t, p, o);
    var qs := NextPush(t, p, s.queues[o].producers[t]);
    PushIsShaped(s, t, qs);
    if Apply(s, Push(t, qs)).queues[o].producers[t] == Q.Idle {
      PushReturns(s, t, p, o, qs);
    } else {
      PushAdvances(s, t, p, o, qs);
    }
  }

  /** The one step that a thread inside free can take. */
  lemma FreeStep(s: Sys, t: nat, p: Ptr) returns (next: Step)
    requires Inv(s) && CanEndFree(s, t, p)
    ensures Only(s, t, next) && FreeAdvances(s, Apply(s, next), t, p) && ToEndFree(s, t) > 0
  {
    assert ThreadOk(s, t);
    next := Local(t, false);
    if s.threads[t].pc.StartPush? {
      next := Push(t, Q.StartPush(t, p));
      FreeStartStep(s, t, p, s.threads[t].pc.owner);
    } else if s.threads[t].pc.Pushing? {
      var o := s.threads[t].pc.owner;
      FreePushStep(s, t, p, o);
      assert ProducerOk(s, t, o);
      next := Push(t, NextPush(t, p, s.queues[o].producers[t]));
    } else {
      FreeLocalStep(s, t, p);
    }
  }

  lemma {:induction false} FreeLeads(s: Sys, t: nat, p: Ptr, n: nat)
    requires Inv(s) && CanEndFree(s, t, p) && n >= ToEndFree(s, t)
    ensures Leads(s, t, Done(p), n)
    decreases n
  {
    var next := FreeStep(s, t, p);
    var s' := Apply(s, next);
    if !Met(s', t, Done(p)) {
      StepInv(s, next);
      FreeLeads(s', t, p, n - 1);
    }
    OneStepMore(s, t, Done(p), n - 1, next);
  }

  // ---------------------------------------------------------------------
  // The end of a malloc
  // ---------------------------------------------------------------------

  /** Thread t is inside malloc. */
  predicate Allocating(s: Sys, t: nat) {
    t < |s.threads| &&
    (Registers(s, t, MallocOp) ||
     match s.threads[t].pc
     case Count => true
     case CheckHead => true
     case CheckTail(_) => true
     case StartDrain => true
     case Draining => true
     case Alloc => true
     case _ => false)
  }

  /** Thread t's heap has a slot that is not taken. */
  ghost predicate HasFreeSlot(s: Sys, t: nat) {
    exists p :: FreeSlot(s, t, p)
  }

  predicate FreeSlot(s: Sys, t: nat, p: Ptr) {
    p in s.home && s.home[p] == t && p !in s.bits
  }

  function Behind(tail: nat, head: nat): nat {
    if tail < head then head - tail else 0
  }

  /** How many steps of its own a drain still needs. */
  function ToEndDrain(q: Q.State): nat {
    match q.consumer
    case Resting => 3 * Behind(q.tail, q.head) + 5
    case ReadHead(tail) => 3 * Behind(tail, q.head) + 4
    case Scan(tail, head) => 3 * Behind(tail, head) + 3
    case Clear(tail, head, _) => 3 * Behind(tail, head) + 2
    case Deliver(tail, head, _) => 3 * Behind(tail, head) + 1
    case Publish(_) => 2
  }

  /** How many steps of its own a malloc needs from the bump of the allocation counter on. */
  function FromCount(s: Sys, t: nat): nat
    requires t < |s.queues|
  {
    3 * Behind(s.queues[t].tail, s.queues[t].head) + 8
  }

  /** At most how many steps of its own a malloc still needs. */
  function ToEndMalloc(s: Sys, t: nat): nat
    requires t < |s.threads| == |s.queues|
  {
    match s.threads[t].pc
    case RegStore(_) => FromCount(s, t) + 5
    case RegLoad(_) => FromCount(s, t) + 4
    case RegCas(_, _) => FromCount(s, t) + ToRegister(s, t)
    case Count => FromCount(s, t)
    case CheckHead => FromCount(s, t) - 1
    case CheckTail(_) => FromCount(s, t) - 2
    case StartDrain => FromCount(s, t) - 3
    case Draining => ToEndDrain(s.queues[t])
    case Alloc => 1
    case _ => 0
  }

  /** After a step from s to s' thread t has a slot, or is nearer to one. */
  ghost predicate MallocAdvances(s: Sys, s': Sys, t: nat)
    requires t < |s.threads| == |s.queues|
  {
    && |s'.threads| == |s'.queues|
    && (Met(s', t, Returned)
        || (Allocating(s', t) && HasFreeSlot(s', t) && ToEndMalloc(s', t) < ToEndMalloc(s, t)))
  }

  lemma SameFreeSlots(s: Sys, s': Sys, t: nat)
    requires HasFreeSlot(s, t) && s'.home == s.home && s'.bits <= s.bits
    ensures HasFreeSlot(s', t)
  {
    var p :| FreeSlot(s, t, p);
    assert FreeSlot(s', t, p);
  }

  lemma MallocLocalStep(s: Sys, t: nat)
    requires Inv(s) && Allocating(s, t) && HasFreeSlot(s, t)
    requires !(s.threads[t].pc in {StartDrain, Draining, Alloc})
    ensures Own(s, t, Local(t, false)) && MallocAdvances(s, Apply(s, Local(t, false)), t)
    ensures forall step | Own(s, t, step) :: step == Local(t, false)
  {
    ShapeOk(s);
    assert ThreadOk(s, t);
    SameFreeSlots(s, Apply(s, Local(t, false)), t);
  }

  /** The step of drain that the owner is at. */
  function NextDrain(c: Q.Consumer): Q.Step {
    match c
    case Resting => Q.DrainLoadTail
    case ReadHead(_) => Q.DrainLoadHead
    case Scan(_, _) => Q.DrainLoadSlot
    case Clear(_, _, _) => Q.DrainClear
    case Deliver(_, _, _) => Q.DrainDeliver
    case Publish(_) => Q.DrainPublish
  }

  lemma OnlyDrain(s: Sys, t: nat)
    requires Inv(s) && t < |s.threads| && s.threads[t].pc in {StartDrain, Draining}
    ensures t < |s.queues|
    ensures var step := Drain(t, NextDrain(s.queues[t].consumer));
            Own(s, t, step) && forall step' | Own(s, t, step') :: step' == step
  {
    ShapeOk(s);
    assert ThreadOk(s, t);
  }

  lemma DrainAdvances(s: Sys, t: nat, qs: Q.Step)
    requires Inv(s) && Allocating(s, t) && HasFreeSlot(s, t) && s.threads[t].pc in {StartDrain, Draining}
    requires Enabled(s, Drain(t, qs)) && qs == NextDrain(s.queues[t].consumer)
    ensures MallocAdvances(s, Apply(s, Drain(t, qs)), t)
  {
    assert ThreadOk(s, t) && Q.Inv(s.queues[t]);
    SameFreeSlots(s, Apply(s, Drain(t, qs)), t);
  }

  lemma MallocAllocStep(s: Sys, t: nat)
    requires Inv(s) && Allocating(s, t) && HasFreeSlot(s, t) && s.threads[t].pc == Alloc
    ensures exists step :: Own(s, t, step)
    ensures forall step | Own(s, t, step) :: step.TakeSlot? && Met(Apply(s, step), t, Returned)
  {
    ShapeOk(s);
    var p :| FreeSlot(s, t, p);
    assert Own(s, t, TakeSlot(t, p));
  }

  /** The one step that a thread inside malloc can take before it takes a slot. */
  lemma MallocStep(s: Sys, t: nat) returns (next: Step)
    requires Inv(s) && Allocating(s, t) && HasFreeSlot(s, t) && s.threads[t].pc != Alloc
    ensures Only(s, t, next) && MallocAdvances(s, Apply(s, next), t) && ToEndMalloc(s, t) > 0
  {
    if s.threads[t].pc in {StartDrain, Draining} {
      OnlyDrain(s, t);
      next := Drain(t, NextDrain(s.queues[t].consumer));
      DrainAdvances(s, t, next.step);
    } else {
      next := Local(t, false);
      MallocLocalStep(s, t);
    }
  }

  lemma {:induction false} MallocLeads(s: Sys, t: nat, n: nat)
    requires Inv(s) && Allocating(s, t) && HasFreeSlot(s, t) && n >= ToEndMalloc(s, t)
    ensures Leads(s, t, Returned, n)
    decreases n
  {
    if s.threads[t].pc == Alloc {
      MallocAllocStep(s, t);
    } else {
      var next := MallocStep(s, t);
      var s' := Apply(s, next);
      if !Met(s', t, Returned) {
        StepInv(s, next);
        MallocLeads(s', t, n - 1);
      }
      OneStepMore(s, t, Returned, n - 1, next);
    }
  }

  // ---------------------------------------------------------------------
  // In every reachable state
  // ---------------------------------------------------------------------

  /** A thread that has begun to register has registered after at most five steps of its own. */
  lemma RegistrationEnds(run: seq<Sys>, steps: seq<Step>, n: nat, t: nat, op: Op)
    requires IsRun(run, steps) && n < |run| && Registers(run[n], t, op)
    ensures Leads(run[n], t, Registered(op), 5)
  {
    hide *;
    RunInv(run, steps, n);
    RegistrationEndsFrom(run[n], t, op);
  }

  lemma RegistrationEndsFrom(s: Sys, t: nat, op: Op)
    requires Inv(s) && Registers(s, t, op)
    ensures Leads(s, t, Registered(op), 5)
  {
    hide Leads;
    RegistrationLeads(s, t, op, 5);
  }

  /** The search for the owner of p comes to p's owner, before it has looked at every entry. */
  lemma SearchEnds(run: seq<Sys>, steps: seq<Step>, n: nat, t: nat, p: Ptr)
    requires IsRun(run, steps) && n < |run| && t < |run[n].threads|
    ensures run[n].threads[t].pc == FindMax(p) ==> Leads(run[n], t, AtOwner(p), run[n].maxId + 1)
    ensures forall i: nat, max: nat | run[n].threads[t].pc == Find(p, i, max) ::
              i < max && Leads(run[n], t, AtOwner(p), max - i)
  {
    hide Leads, Inv;
    RunInv(run, steps, n);
    if run[n].threads[t].pc == FindMax(p) { SearchLeadsFromMax(run[n], t, p); }
    forall i: nat, max: nat | run[n].threads[t].pc == Find(p, i, max)
      ensures i < max && Leads(run[n], t, AtOwner(p), max - i)
    {
      SearchLeads(run[n], t, p, i, max);
    }
  }

  /**
   * Wherever a thread is in its free of p, a bounded number of steps of its own
   * ends it: the slot is cleared, or p is in its owner's queue, or dropped.
   */
  lemma FreeEnds(run: seq<Sys>, steps: seq<Step>, n: nat, t: nat, p: Ptr)
    requires IsRun(run, steps) && n < |run| && CanEndFree(run[n], t, p)
    ensures Leads(run[n], t, Done(p), |run[n].threads| + 12)
  {
    hide *;
    RunInv(run, steps, n);
    FreeEndsFrom(run[n], t, p);
  }

  lemma FreeEndsFrom(s: Sys, t: nat, p: Ptr)
    requires Inv(s) && CanEndFree(s, t, p)
    ensures Leads(s, t, Done(p), |s.threads| + 12)
  {
    hide *;
    FreeIsBounded(s, t, p);
    FreeLeads(s, t, p, |s.threads| + 12);
  }

  lemma FreeIsBounded(s: Sys, t: nat, p: Ptr)
    requires Inv(s) && CanEndFree(s, t, p)
    ensures t < |s.threads| && ToEndFree(s, t) <= |s.threads| + 12
  {
    assert ThreadOk(s, t);
  }

  /** Wherever a thread is in its malloc, a bounded number of steps of its own ends it when its heap has a free slot. */
  lemma MallocEnds(run: seq<Sys>, steps: seq<Step>, n: nat, t: nat)
    requires IsRun(run, steps) && n < |run| && Allocating(run[n], t) && HasFreeSlot(run[n], t)
    ensures t < |run[n].queues| && Leads(run[n], t, Returned, 3 * run[n].queues[t].cap + 13)
  {
    hide *;
    RunInv(run, steps, n);
    MallocEndsFrom(run[n], t);
  }

  lemma MallocEndsFrom(s: Sys, t: nat)
    requires Inv(s) && Allocating(s, t) && HasFreeSlot(s, t)
    ensures t < |s.queues| && Leads(s, t, Returned, 3 * s.queues[t].cap + 13)
  {
    hide *;
    MallocIsBounded(s, t);
    MallocLeads(s, t, 3 * s.queues[t].cap + 13);
  }

  lemma MallocIsBounded(s: Sys, t: nat)
    requires Inv(s) && Allocating(s, t)
    ensures t < |s.queues| == |s.threads| && ToEndMalloc(s, t) <= 3 * s.queues[t].cap + 13
  {
    assert ThreadOk(s, t) && Q.Inv(s.queues[t]);
  }

  predicate HandsOut(s: Sys, s': Sys, p: Ptr) {
    Taken(s, s', p) && p in s'.place && s'.place[p] == Held
  }

  /** A malloc ends only by handing out a slot of the thread's own heap that was not taken. */
  lemma MallocHandsOutASlot(run: seq<Sys>, steps: seq<Step>, n: nat, t: nat)
    requires IsRun(run, steps) && n < |steps| && Allocating(run[n], t)
    requires t < |run[n + 1].threads| && run[n + 1].threads[t].pc == Idle
    ensures exists p :: FreeSlot(run[n], t, p) && HandsOut(run[n], run[n + 1], p)
  {
    RunInv(run, steps, n);
    OnlyTakeSlotReturns(run[n], steps[n], t);
    var p := steps[n].ptr;
    assert FreeSlot(run[n], t, p) && HandsOut(run[n], run[n + 1], p);
  }

  lemma OnlyTakeSlotReturns(s: Sys, step: Step, t: nat)
    requires Inv(s) && Enabled(s, step) && Allocating(s, t)
    requires t < |Apply(s, step).threads| && Apply(s, step).threads[t].pc == Idle
    ensures step.TakeSlot? && step.t == t
  {
    assert ThreadOk(s, t);
    if step.t == t {
      if step.Drain? { DrainIsShaped(s, t, step.step); }
    } else {
      OthersStay(s, step, t);
    }
  }

  /** A step of another thread leaves thread t where it is. */
  lemma OthersStay(s: Sys, step: Step, t: nat)
    requires Enabled(s, step) && t < |s.threads| && step.t != t
    requires step.Push? ==> s.threads[step.t].pc.owner < |s.queues| && step.t < |s.queues[s.threads[step.t].pc.owner].producers|
    ensures t < |Apply(s, step).threads| && Apply(s, step).threads[t] == s.threads[t]
  {
  }

  /** The mallocs of thread t that have bumped its allocation counter among the first n steps. */
  function Counted(run: seq<Sys>, steps: seq<Step>, n: nat, t: nat): nat
    requires n <= |steps| <= |run|
  {
    if n == 0 then 0
    else Counted(run, steps, n - 1, t) + if CountsFor(run[n - 1], steps[n - 1], t) then 1 else 0
  }

  predicate CountsFor(s: Sys, step: Step, t: nat) {
    step.Local? && step.t == t < |s.threads| && s.threads[t].pc == Count
  }

  lemma CountStep(s: Sys, step: Step, t: nat)
    requires Inv(s) && Enabled(s, step) && t < |s.threads|
    ensures var s' := Apply(s, step);
            && |s'.threads| == |s.threads|
            && s'.threads[t].allocCount
               == if CountsFor(s, step, t) then (s.threads[t].allocCount + 1) % UINT_MODULUS else s.threads[t].allocCount
  {
    if step.t != t { OthersStay(s, step, t); }
  }

  lemma NextModulo(c: nat)
    ensures (c % UINT_MODULUS + 1) % UINT_MODULUS == (c + 1) % UINT_MODULUS
    ensures ((c % UINT_MODULUS + 1) % UINT_MODULUS) % DRAIN_CHECK_INTERVAL == (c + 1) % DRAIN_CHECK_INTERVAL
  {
    var q, r := c / UINT_MODULUS, c % UINT_MODULUS;
    assert c == UINT_MODULUS * q + r;
    if r + 1 < UINT_MODULUS {
      assert c + 1 == UINT_MODULUS * q + (r + 1);
    } else {
      assert c + 1 == UINT_MODULUS * (q + 1);
    }
  }

  predicate CounterHas(s: Sys, t: nat, c: nat) {
    t < |s.threads| && s.threads[t].allocCount == c % UINT_MODULUS
  }

  lemma NextCount(s: Sys, step: Step, t: nat, c: nat)
    requires Inv(s) && Enabled(s, step) && CounterHas(s, t, c)
    ensures CounterHas(Apply(s, step), t, if CountsFor(s, step, t) then c + 1 else c)
  {
    CountStep(s, step, t);
    NextModulo(c);
  }

  lemma {:induction false} CounterIsCount(run: seq<Sys>, steps: seq<Step>, n: nat, t: nat)
    requires IsRun(run, steps) && n < |run| && t < |run[0].threads|
    ensures CounterHas(run[n], t, Counted(run, steps, n, t))
  {
    if n > 0 {
      hide Apply, Enabled, Inv;
      CounterIsCount(run, steps, n - 1, t);
      CountAfter(run, steps, n - 1, t, Counted(run, steps, n - 1, t));
    }
  }

  lemma CountAfter(run: seq<Sys>, steps: seq<Step>, n: nat, t: nat, c: nat)
    requires IsRun(run, steps) && n < |steps| && CounterHas(run[n], t, c)
    ensures CounterHas(run[n + 1], t, if CountsFor(run[n], steps[n], t) then c + 1 else c)
  {
    RunInv(run, steps, n);
    NextCount(run[n], steps[n], t, c);
  }

  lemma CheckFollows(s: Sys, step: Step, t: nat, c: nat)
    requires Enabled(s, step) && CountsFor(s, step, t) && CounterHas(s, t, c)
    ensures t < |Apply(s, step).threads|
    ensures Apply(s, step).threads[t].pc == if (c + 1) % DRAIN_CHECK_INTERVAL == 0 then CheckHead else Alloc
  {
    NextModulo(c);
  }

  /** A malloc looks at its thread's queue if and only if it is a sixteenth one, also after the counter has wrapped. */
  lemma QueueIsCheckedIff(run: seq<Sys>, steps: seq<Step>, n: nat, t: nat)
    requires IsRun(run, steps) && n < |steps| && t < |run[0].threads| && CountsFor(run[n], steps[n], t)
    ensures t < |run[n + 1].threads|
    ensures run[n + 1].threads[t].pc
            == if Counted(run, steps, n + 1, t) % DRAIN_CHECK_INTERVAL == 0 then CheckHead else Alloc
  {
    hide Apply, Enabled, Inv;
    CounterIsCount(run, steps, n, t);
    CheckFollows(run[n], steps[n], t, Counted(run, steps, n, t));
  }
}
