/**
 * Cross-thread frees of small objects, end to end: OwnershipTrackingHeap
 * (src/include/objectownership.h), HeapRegistry (src/include/heapregistry.h)
 * and the per-owner queues of GlobalFreePool (src/include/globalfreepool.h).
 *
 * Thread t owns heap t and queue t.  Each atomic access to the registry or to a
 * queue is one step; the steps inside a queue are those of FreeQueue.  Work that
 * a thread does on its own heap (allocating or clearing a slot) is one step,
 * because, as proved here, no other thread ever changes that heap.
 */
module CrossThread {
  import Q = FreeQueue

  type Ptr = Q.Ptr

  const MAX_THREADS: nat := 64
  const FREE_BATCH_SIZE: nat := 32
  const DRAIN_CHECK_INTERVAL: nat := 16
  const UINT_MODULUS: nat := 0x1_0000_0000

  datatype Op = MallocOp | FreeOp(ptr: Ptr)

  /** What a thread does next. */
  datatype Pc =
    | Idle
    | RegStore(op: Op)                  // registerHeap: publish the entry
    | RegLoad(op: Op)                   // registerHeap: read the maximum id
    | RegCas(op: Op, oldMax: nat)       // registerHeap: raise the maximum id
    | Count                             // malloc: bump the allocation counter
    | CheckHead                         // shouldDrain: load the head
    | CheckTail(head: nat)              // shouldDrain: load the tail
    | StartDrain
    | Draining
    | Alloc                             // SuperHeap::malloc
    | TryOwn(ptr: Ptr)                  // SuperHeap::free, first try
    | FindMax(ptr: Ptr)                 // findOwner: load the maximum id
    | Find(ptr: Ptr, i: nat, max: nat)  // findOwner: look at entry i
    | StartPush(ptr: Ptr, owner: nat)
    | Pushing(owner: nat)
    | TryAgain(ptr: Ptr)                // SuperHeap::free when no owner was found

  datatype Thread = Thread(pc: Pc, known: bool, allocCount: nat)

  /** History: what became of each object whose slot bit is set. */
  datatype Place =
    | Held                              // the program has it
    | InFlight(t: nat)                  // thread t is inside free with it
    | Queued(owner: nat, ticket: nat)
    | Dropped                           // the owner's queue was full

  datatype Sys = Sys(
    home: map<Ptr, nat>,                // the heap each small-object address belongs to
    bits: set<Ptr>,                     // slots whose bitmap bit is set, over all heaps
    registered: seq<bool>,
    maxId: nat,
    threads: seq<Thread>,
    queues: seq<Q.State>,
    place: map<Ptr, Place>)

  datatype Step =
    | BeginMalloc(t: nat)
    | BeginFree(t: nat, ptr: Ptr)
    | Local(t: nat, spurious: bool)
    | TakeSlot(t: nat, ptr: Ptr)
    | Drain(t: nat, step: Q.Step)
    | Push(t: nat, step: Q.Step)

  ghost predicate Init(s: Sys) {
    && |s.threads| == |s.queues| == |s.registered| <= MAX_THREADS
    && Q.NULL !in s.home
    && (forall p | p in s.home :: s.home[p] < |s.threads|)
    && s.bits == {} && s.place == map[]
    && s.maxId == 0
    && (forall t :: 0 <= t < |s.threads| ==> s.threads[t] == Thread(Idle, false, 0) && !s.registered[t])
    && (forall o :: 0 <= o < |s.queues| ==> Q.Init(s.queues[o]) && |s.queues[o].producers| == |s.threads|)
  }

  predicate PushStep(t: nat, step: Q.Step) {
    match step
    case StartPush(p, _) => p == t
    case PushLoadHead(p) => p == t
    case PushLoadTail(p) => p == t
    case PushCas(p, _) => p == t
    case PushStore(p) => p == t
    case _ => false
  }

  predicate Shape(s: Sys) {
    && |s.threads| == |s.queues| == |s.registered| && s.maxId <= |s.registered|
    && forall o :: 0 <= o < |s.queues| ==> s.queues[o].head < Q.SIZE_MODULUS && s.queues[o].tail < Q.SIZE_MODULUS
  }

  predicate Enabled(s: Sys, step: Step) {
    && Shape(s)
    && step.t < |s.threads|
    && var pc := s.threads[step.t].pc;
       match step
       case BeginMalloc(t) => pc == Idle
       case BeginFree(t, p) => pc == Idle && p in s.place && s.place[p] == Held
       case Local(t, _) =>
         && (pc.RegStore? || pc.RegLoad? || pc.RegCas? || pc.Count? || pc.CheckHead? || pc.CheckTail?
             || pc.TryOwn? || pc.FindMax? || pc.Find? || pc.TryAgain?)
         && (pc.Find? ==> pc.i <= pc.max <= |s.registered|)
         && (pc.CheckTail? ==> pc.head < Q.SIZE_MODULUS)
       case TakeSlot(t, p) => pc == Alloc && p in s.home && s.home[p] == t && p !in s.bits
       case Drain(t, qs) =>
         && Q.OwnerStepOnly(qs) && Q.Enabled(s.queues[t], qs)
         && (if qs.DrainLoadTail? then pc == StartDrain else pc == Draining)
       case Push(t, qs) =>
         && PushStep(t, qs)
         && (if qs.StartPush? then pc.StartPush? && pc.ptr == qs.ptr && pc.owner < |s.queues|
                                   && Q.Enabled(s.queues[pc.owner], qs)
             else pc.Pushing? && pc.owner < |s.queues| && Q.Enabled(s.queues[pc.owner], qs))
  }

  function Goto(s: Sys, t: nat, pc: Pc): Sys
    requires t < |s.threads|
  {
    s.(threads := s.threads[t := s.threads[t].(pc := pc)])
  }

  /** SuperHeap::free on thread t's own heap: clears the bit if this heap has the slot and it is set. */
  predicate OwnFreeWorks(s: Sys, t: nat, p: Ptr) {
    p in s.home && s.home[p] == t && p in s.bits
  }

  function OwnFree(s: Sys, t: nat, p: Ptr): Sys {
    if OwnFreeWorks(s, t, p) then s.(bits := s.bits - {p}, place := s.place - {p}) else s
  }

  /** Where an operation goes on once its heap is registered. */
  function Resume(op: Op): Pc {
    match op
    case MallocOp => Count
    case FreeOp(p) => FindMax(p)
  }

  function ApplyLocal(s: Sys, t: nat, spurious: bool): Sys
    requires Enabled(s, Local(t, spurious))
  {
    match s.threads[t].pc
    case RegStore(op) => Goto(s.(registered := s.registered[t := true]), t, RegLoad(op))
    case RegLoad(op) => Goto(s, t, RegCas(op, s.maxId))
    case RegCas(op, oldMax) =>
      if oldMax >= t + 1 then
        s.(threads := s.threads[t := s.threads[t].(pc := Resume(op), known := true)])
      else if s.maxId == oldMax && !spurious then
        s.(maxId := t + 1)  // the local copy keeps the old value, so the loop goes round once more
      else
        Goto(s, t, RegCas(op, s.maxId))
    case Count =>
      var n := (s.threads[t].allocCount + 1) % UINT_MODULUS;
      s.(threads := s.threads[t :=
          s.threads[t].(allocCount := n, pc := if n % DRAIN_CHECK_INTERVAL == 0 then CheckHead else Alloc)])
    case CheckHead => Goto(s, t, CheckTail(s.queues[t].head))
    case CheckTail(head) =>
      Goto(s, t, if Q.SizeSub(head, s.queues[t].tail) >= FREE_BATCH_SIZE then StartDrain else Alloc)
    case TryOwn(p) =>
      if OwnFreeWorks(s, t, p) then Goto(OwnFree(s, t, p), t, Idle)
      else Goto(s, t, if s.threads[t].known then FindMax(p) else RegStore(FreeOp(p)))
    case FindMax(p) => Goto(s, t, Find(p, 0, s.maxId))
    case Find(p, i, max) =>
      if i == max then Goto(s, t, TryAgain(p))
      else if i != t && s.registered[i] && p in s.home && s.home[p] == i then Goto(s, t, StartPush(p, i))
      else Goto(s, t, Find(p, i + 1, max))
    case TryAgain(p) => Goto(OwnFree(s, t, p), t, Idle)
    case _ => s
  }

  /** Thread t moved its queue to q' by step qs; the drain's callback frees on the owner's heap. */
  function AfterDrain(s: Sys, t: nat, qs: Q.Step, q': Q.State): Sys
    requires t < |s.threads| == |s.queues| && (qs.DrainDeliver? ==> s.queues[t].consumer.Deliver?)
  {
    var s1 := s.(queues := s.queues[t := q']);
    match qs
    case DrainLoadTail => Goto(s1, t, Draining)
    case DrainDeliver => OwnFree(s1, t, s.queues[t].consumer.ptr)
    case DrainPublish => Goto(s1, t, Alloc)
    case _ => s1
  }

  /**
   * Thread t moved queue o to q' by step qs.  crossThreadFree's result is
   * ignored: when push answers "full" the object is dropped.
   */
  function AfterPush(s: Sys, t: nat, o: nat, qs: Q.Step, q': Q.State): Sys
    requires t < |s.threads| && o < |s.queues| && t < |s.queues[o].producers| && t < |q'.producers|
    requires qs.PushLoadTail? || qs.PushCas? ==> s.queues[o].producers[t] != Q.Idle
  {
    var q := s.queues[o];
    var s1 := s.(queues := s.queues[o := q']);
    match qs
    case StartPush(_, _) => Goto(s1, t, Pushing(o))
    case PushLoadTail(_) =>
      if q'.producers[t] == Q.Idle then Goto(s1.(place := s.place[q.producers[t].ptr := Dropped]), t, Idle) else s1
    case PushCas(_, _) =>
      if q'.producers[t].Store? then s1.(place := s.place[q.producers[t].ptr := Queued(o, q.head)]) else s1
    case PushStore(_) => Goto(s1, t, Idle)
    case _ => s1
  }

  function Apply(s: Sys, step: Step): Sys
    requires Enabled(s, step)
  {
    match step
    case BeginMalloc(t) => Goto(s, t, if s.threads[t].known then Count else RegStore(MallocOp))
    case BeginFree(t, p) => Goto(s.(place := s.place[p := InFlight(t)]), t, TryOwn(p))
    case Local(t, spurious) => ApplyLocal(s, t, spurious)
    case TakeSlot(t, p) => Goto(s.(bits := s.bits + {p}, place := s.place[p := Held]), t, Idle)
    case Drain(t, qs) => AfterDrain(s, t, qs, Q.Apply(s.queues[t], qs))
    case Push(t, qs) =>
      var o := s.threads[t].pc.owner;
      AfterPush(s, t, o, qs, Q.Apply(s.queues[o], qs))
  }

  // ---------------------------------------------------------------------
  // The inductive invariant
  // ---------------------------------------------------------------------

  /** Thread t holds p in a local variable of free or of a push that has not claimed a ticket yet. */
  predicate Carries(s: Sys, t: nat, p: Ptr)
    requires t < |s.threads|
  {
    match s.threads[t].pc
    case RegStore(op) => op == FreeOp(p)
    case RegLoad(op) => op == FreeOp(p)
    case RegCas(op, _) => op == FreeOp(p)
    case TryOwn(ptr) => ptr == p
    case FindMax(ptr) => ptr == p
    case Find(ptr, _, _) => ptr == p
    case StartPush(ptr, _) => ptr == p
    case TryAgain(ptr) => ptr == p
    case Pushing(o) => o < |s.queues| && t < |s.queues[o].producers| && ProducerCarries(s.queues[o].producers[t], p)
    case _ => false
  }

  predicate ProducerCarries(pc: Q.Producer, p: Ptr) {
    (pc.LoadHead? || pc.LoadTail? || pc.Cas?) && pc.ptr == p
  }

  /** Ticket k of queue o is claimed and not delivered. */
  predicate Waiting(q: Q.State, k: nat) {
    |q.delivered| <= k < |q.claimed|
  }

  ghost predicate PlaceOk(s: Sys, p: Ptr) {
    p in s.place ==>
      match s.place[p]
      case InFlight(t) => t < |s.threads| && Carries(s, t, p)
      case Queued(o, k) => o < |s.queues| && Waiting(s.queues[o], k) && s.queues[o].claimed[k] == p
      case _ => true
  }

  ghost predicate CarriedOk(s: Sys, t: nat, p: Ptr)
    requires t < |s.threads|
  {
    Carries(s, t, p) ==> p in s.place && s.place[p] == InFlight(t)
  }

  ghost predicate WaitingOk(s: Sys, o: nat, k: nat)
    requires o < |s.queues|
  {
    var q := s.queues[o];
    Waiting(q, k) ==>
      var p := q.claimed[k];
      p in s.place && s.place[p] == Queued(o, k) && p in s.home && s.home[p] == o
  }

  /** A thread's program counter agrees with the queues and the registry. */
  ghost predicate ThreadOk(s: Sys, t: nat)
    requires t < |s.threads| == |s.queues| == |s.registered|
  {
    var pc := s.threads[t].pc;
    && (s.queues[t].consumer == Q.Resting <==> pc != Draining)
    && (s.threads[t].known ==> s.registered[t] && t < s.maxId)
    && (pc.RegLoad? ==> s.registered[t])
    && (pc.RegCas? ==> s.registered[t] && (pc.oldMax > t ==> s.maxId > t))
    && (pc in {Count, StartDrain, Draining, Alloc} || pc.CheckHead? || pc.CheckTail? ==> s.threads[t].known)
    && (pc.CheckTail? ==> pc.head < Q.SIZE_MODULUS)
    && match pc
       case RegStore(FreeOp(p)) => p in s.home && s.home[p] != t
       case RegLoad(FreeOp(p)) => p in s.home && s.home[p] != t
       case RegCas(FreeOp(p), _) => p in s.home && s.home[p] != t
       case FindMax(p) => p in s.home && s.home[p] != t
       case Find(p, i, max) => p in s.home && s.home[p] != t && i <= s.home[p] < max <= s.maxId
       case StartPush(p, o) => p in s.home && s.home[p] == o != t && o < |s.queues|
       case Pushing(o) => o < |s.queues| && o != t
       case TryAgain(_) => false
       case _ => true
  }

  /** Thread t is a producer of queue o exactly while it is pushing there. */
  ghost predicate ProducerOk(s: Sys, t: nat, o: nat)
    requires t < |s.threads| && o < |s.queues| && t < |s.queues[o].producers|
  {
    var pc := s.queues[o].producers[t];
    && (pc != Q.Idle <==> s.threads[t].pc == Pushing(o))
    && (pc.LoadHead? || pc.LoadTail? || pc.Cas? ==> pc.ptr in s.home && s.home[pc.ptr] == o)
  }

  ghost predicate BitOk(s: Sys, p: Ptr) {
    p in s.bits ==> p in s.home && s.home[p] < |s.threads| && s.threads[s.home[p]].known
  }

  ghost predicate InvShape(s: Sys) {
    && |s.threads| == |s.queues| == |s.registered| && s.maxId <= |s.registered|
    && Q.NULL !in s.home
    && forall o :: 0 <= o < |s.queues| ==> |s.queues[o].producers| == |s.threads|
  }

  ghost predicate InvQueues(s: Sys) {
    forall o :: 0 <= o < |s.queues| ==> Q.Inv(s.queues[o])
  }

  ghost predicate InvThreads(s: Sys) {
    && InvShape(s)
    && (forall t :: 0 <= t < |s.threads| ==> ThreadOk(s, t))
    && (forall t, o | 0 <= t < |s.threads| && 0 <= o < |s.queues| :: ProducerOk(s, t, o))
  }

  ghost predicate InvAccount(s: Sys) {
    && InvShape(s)
    && s.bits == s.place.Keys
    && (forall p :: BitOk(s, p))
    && (forall p :: PlaceOk(s, p))
    && (forall t: nat, p | t < |s.threads| :: CarriedOk(s, t, p))
    && (forall o: nat, k: nat | o < |s.queues| :: WaitingOk(s, o, k))
  }

  ghost predicate Inv(s: Sys) {
    InvQueues(s) && InvThreads(s) && InvAccount(s)
  }

  lemma InitInv(s: Sys)
    requires Init(s)
    ensures Inv(s)
  {
    forall o | 0 <= o < |s.queues|
      ensures Q.Inv(s.queues[o])
    {
      Q.InitInv(s.queues[o]);
    }
  }

  // ---------------------------------------------------------------------
  // Steps on a thread's locals, the registry and the thread's own heap
  // ---------------------------------------------------------------------

  /** A step of thread t outside the queues that says the same about every object but p. */
  ghost predicate LocalShape(s: Sys, s': Sys, t: nat, p: Ptr) {
    && InvShape(s) && t < |s.threads| == |s'.threads|
    && s' == s.(threads := s.threads[t := s'.threads[t]], registered := s'.registered, maxId := s'.maxId,
                bits := s'.bits, place := s'.place)
    && |s'.registered| == |s.registered| && s.maxId <= s'.maxId <= |s.registered|
    && (forall u :: 0 <= u < |s.registered| && s.registered[u] ==> s'.registered[u])
    && (s.threads[t].known ==> s'.threads[t].known)
    && !s.threads[t].pc.Pushing? && !s'.threads[t].pc.Pushing?
    && ThreadOk(s', t)
    && s'.bits == s'.place.Keys
    && (forall p' :: p' != p ==>
          && (p' in s'.place <==> p' in s.place)
          && (p' in s.place ==> s'.place[p'] == s.place[p'])
          && (Carries(s', t, p') <==> Carries(s, t, p')))
    && (Carries(s', t, p) <==> p in s'.place && s'.place[p] == InFlight(t))
    && (p in s'.place ==> s'.place[p] in {Held, InFlight(t)} && BitOk(s', p))
    && (p in s.place ==> s.place[p] in {Held, InFlight(t)})
  }

  lemma LocalThreads(s: Sys, s': Sys, t: nat, p: Ptr)
    requires InvThreads(s) && LocalShape(s, s', t, p)
    ensures InvThreads(s')
  {
    forall u | 0 <= u < |s'.threads|
      ensures ThreadOk(s', u)
    {
      assert ThreadOk(s, u);
    }
    forall u, o | 0 <= u < |s.threads| && 0 <= o < |s.queues|
      ensures ProducerOk(s', u, o)
    {
      assert ProducerOk(s, u, o);
    }
  }

  lemma LocalAccount(s: Sys, s': Sys, t: nat, p: Ptr)
    requires InvAccount(s) && LocalShape(s, s', t, p)
    ensures InvAccount(s')
  {
    forall u, p' | 0 <= u < |s.threads| && u != t
      ensures Carries(s', u, p') <==> Carries(s, u, p')
    {
    }
    forall p'
      ensures PlaceOk(s', p') && BitOk(s', p')
    {
      assert PlaceOk(s, p') && BitOk(s, p');
    }
    forall u, p' | 0 <= u < |s'.threads|
      ensures CarriedOk(s', u, p')
    {
      assert CarriedOk(s, u, p');
    }
    forall o: nat, k: nat | o < |s'.queues|
      ensures WaitingOk(s', o, k)
    {
      assert WaitingOk(s, o, k);
    }
  }

  lemma LocalFrame(s: Sys, s': Sys, t: nat, p: Ptr)
    requires Inv(s) && LocalShape(s, s', t, p)
    ensures Inv(s')
  {
    LocalThreads(s, s', t, p);
    LocalAccount(s, s', t, p);
  }

  /** An object inside free has its bit set, so its owner registered before handing it out. */
  lemma CarriedOwner(s: Sys, t: nat, p: Ptr)
    requires InvThreads(s) && InvAccount(s) && t < |s.threads| && Carries(s, t, p)
    ensures p in s.place && s.place[p] == InFlight(t)
    ensures p in s.home && s.home[p] < |s.threads|
    ensures s.registered[s.home[p]] && s.home[p] < s.maxId
  {
    assert CarriedOk(s, t, p) && BitOk(s, p);
    assert ThreadOk(s, s.home[p]);
  }

  /** The object a thread outside the queues is busy with, or the null pointer. */
  function Busy(pc: Pc): Ptr {
    match pc
    case RegStore(FreeOp(p)) => p
    case RegLoad(FreeOp(p)) => p
    case RegCas(FreeOp(p), _) => p
    case TryOwn(p) => p
    case FindMax(p) => p
    case Find(p, _, _) => p
    case StartPush(p, _) => p
    case TryAgain(p) => p
    case _ => Q.NULL
  }

  /** What is known of the object thread t is busy with, outside the queues. */
  ghost predicate BusyKnown(s: Sys, t: nat)
    requires t < |s.threads|
  {
    var p := Busy(s.threads[t].pc);
    if p == Q.NULL then p !in s.place && forall p' :: !Carries(s, t, p')
    else Carries(s, t, p) && p in s.place && s.place[p] == InFlight(t) && BitOk(s, p)
         && p in s.home && s.home[p] < |s.registered| && s.registered[s.home[p]] && s.home[p] < s.maxId
  }

  lemma BusyOk(s: Sys, t: nat)
    requires InvThreads(s) && InvAccount(s) && t < |s.threads| && !s.threads[t].pc.Pushing?
    ensures BusyKnown(s, t)
  {
    var p := Busy(s.threads[t].pc);
    assert BitOk(s, Q.NULL);
    forall p'
      ensures Carries(s, t, p') ==> p' == p && p' != Q.NULL
    {
      assert CarriedOk(s, t, p') && BitOk(s, p');
    }
    if p != Q.NULL { CarriedOwner(s, t, p); }
  }

  lemma PublishShape(s: Sys, t: nat, spurious: bool)
    requires InvShape(s) && s.bits == s.place.Keys && Enabled(s, Local(t, spurious)) && ThreadOk(s, t)
    requires BusyKnown(s, t) && s.threads[t].pc.RegStore?
    ensures LocalShape(s, Apply(s, Local(t, spurious)), t, Busy(s.threads[t].pc))
  {
  }

  lemma LoadMaxShape(s: Sys, t: nat, spurious: bool)
    requires InvShape(s) && s.bits == s.place.Keys && Enabled(s, Local(t, spurious)) && ThreadOk(s, t)
    requires BusyKnown(s, t) && s.threads[t].pc.RegLoad?
    ensures LocalShape(s, Apply(s, Local(t, spurious)), t, Busy(s.threads[t].pc))
  {
  }

  lemma RaiseMaxShape(s: Sys, t: nat, spurious: bool)
    requires InvShape(s) && s.bits == s.place.Keys && Enabled(s, Local(t, spurious)) && ThreadOk(s, t)
    requires BusyKnown(s, t) && s.threads[t].pc.RegCas?
    ensures LocalShape(s, Apply(s, Local(t, spurious)), t, Busy(s.threads[t].pc))
  {
  }

  lemma FindShape(s: Sys, t: nat, spurious: bool)
    requires InvShape(s) && s.bits == s.place.Keys && Enabled(s, Local(t, spurious)) && ThreadOk(s, t)
    requires BusyKnown(s, t)
    requires s.threads[t].pc.Find?
    ensures LocalShape(s, Apply(s, Local(t, spurious)), t, Busy(s.threads[t].pc))
  {
  }

  lemma FindMaxShape(s: Sys, t: nat, spurious: bool)
    requires InvShape(s) && s.bits == s.place.Keys && Enabled(s, Local(t, spurious)) && ThreadOk(s, t)
    requires BusyKnown(s, t)
    requires s.threads[t].pc.FindMax?
    ensures LocalShape(s, Apply(s, Local(t, spurious)), t, Busy(s.threads[t].pc))
  {
  }

  lemma TryOwnShape(s: Sys, t: nat, spurious: bool)
    requires InvShape(s) && s.bits == s.place.Keys && Enabled(s, Local(t, spurious)) && ThreadOk(s, t)
    requires BusyKnown(s, t) && s.threads[t].pc.TryOwn?
    ensures LocalShape(s, Apply(s, Local(t, spurious)), t, Busy(s.threads[t].pc))
  {
    assert Carries(s, t, s.threads[t].pc.ptr);
    assert ThreadOk(Apply(s, Local(t, spurious)), t);
  }

  lemma CountShape(s: Sys, t: nat, spurious: bool)
    requires InvShape(s) && s.bits == s.place.Keys && Enabled(s, Local(t, spurious)) && ThreadOk(s, t)
    requires BusyKnown(s, t)
    requires var pc := s.threads[t].pc; pc.Count? || pc.CheckHead? || pc.CheckTail?
    ensures LocalShape(s, Apply(s, Local(t, spurious)), t, Busy(s.threads[t].pc))
  {
  }

  lemma LocalStepShape(s: Sys, t: nat, spurious: bool)
    requires InvShape(s) && s.bits == s.place.Keys && Enabled(s, Local(t, spurious)) && ThreadOk(s, t)
    requires BusyKnown(s, t)
    ensures LocalShape(s, Apply(s, Local(t, spurious)), t, Busy(s.threads[t].pc))
  {
    match s.threads[t].pc
    case RegStore(_) => PublishShape(s, t, spurious);
    case RegLoad(_) => LoadMaxShape(s, t, spurious);
    case RegCas(_, _) => RaiseMaxShape(s, t, spurious);
    case FindMax(_) => FindMaxShape(s, t, spurious);
    case Find(_, _, _) => FindShape(s, t, spurious);
    case TryOwn(_) => TryOwnShape(s, t, spurious);
    case _ => CountShape(s, t, spurious);
  }

  lemma LocalStep(s: Sys, t: nat, spurious: bool)
    requires Inv(s) && Enabled(s, Local(t, spurious))
    ensures Inv(Apply(s, Local(t, spurious)))
  {
    BusyOk(s, t);
    assert ThreadOk(s, t);
    LocalStepShape(s, t, spurious);
    LocalFrame(s, Apply(s, Local(t, spurious)), t, Busy(s.threads[t].pc));
  }

  lemma BeginMallocStep(s: Sys, t: nat)
    requires Inv(s) && Enabled(s, BeginMalloc(t))
    ensures Inv(Apply(s, BeginMalloc(t)))
  {
    assert ThreadOk(s, t);
    BusyOk(s, t);
    LocalFrame(s, Apply(s, BeginMalloc(t)), t, Q.NULL);
  }

  lemma BeginFreeStep(s: Sys, t: nat, p: Ptr)
    requires Inv(s) && Enabled(s, BeginFree(t, p))
    ensures Inv(Apply(s, BeginFree(t, p)))
  {
    assert ThreadOk(s, t) && BitOk(s, p);
    LocalFrame(s, Apply(s, BeginFree(t, p)), t, p);
  }

  lemma TakeSlotStep(s: Sys, t: nat, p: Ptr)
    requires Inv(s) && Enabled(s, TakeSlot(t, p))
    ensures Inv(Apply(s, TakeSlot(t, p)))
  {
    assert ThreadOk(s, t);
    LocalFrame(s, Apply(s, TakeSlot(t, p)), t, p);
  }

  // ---------------------------------------------------------------------
  // Steps inside a queue
  // ---------------------------------------------------------------------

  /** What an owner step of FreeQueue does as seen from outside the queue. */
  ghost predicate DrainEffect(q: Q.State, q': Q.State, qs: Q.Step) {
    && q'.producers == q.producers && q'.claimed == q.claimed
    && (qs.DrainDeliver? ==>
          && q.consumer.Deliver? && Waiting(q, |q.delivered|) && q.consumer.ptr == q.claimed[|q.delivered|]
          && q'.delivered == q.delivered + [q.consumer.ptr])
    && (!qs.DrainDeliver? ==> q'.delivered == q.delivered)
    && (q.consumer == Q.Resting <==> qs.DrainLoadTail?)
    && (q'.consumer == Q.Resting <==> qs.DrainPublish?)
  }

  lemma OwnerStepEffect(q: Q.State, qs: Q.Step)
    requires Q.Inv(q) && Q.Enabled(q, qs) && Q.OwnerStepOnly(qs)
    ensures Q.Inv(Q.Apply(q, qs)) && DrainEffect(q, Q.Apply(q, qs), qs)
  {
    Q.StepInv(q, qs);
  }

  ghost predicate DrainShape(s: Sys, t: nat, qs: Q.Step, q': Q.State) {
    && InvShape(s) && t < |s.threads| && Q.OwnerStepOnly(qs)
    && s.threads[t].pc == (if qs.DrainLoadTail? then StartDrain else Draining)
    && DrainEffect(s.queues[t], q', qs)
    && ThreadOk(s, t)
    && (qs.DrainDeliver? ==> OwnFreeWorks(s, t, s.queues[t].consumer.ptr))
  }

  lemma DrainThreadOk(s: Sys, t: nat, qs: Q.Step, q': Q.State, u: nat)
    requires DrainShape(s, t, qs, q') && u < |s.threads| && ThreadOk(s, u)
    ensures ThreadOk(AfterDrain(s, t, qs, q'), u)
  {
  }

  lemma DrainThreads(s: Sys, t: nat, qs: Q.Step, q': Q.State)
    requires InvThreads(s) && DrainShape(s, t, qs, q')
    ensures InvThreads(AfterDrain(s, t, qs, q'))
  {
    var s' := AfterDrain(s, t, qs, q');
    forall u: nat | u < |s'.threads|
      ensures ThreadOk(s', u)
    {
      DrainThreadOk(s, t, qs, q', u);
    }
    forall u: nat, o: nat | u < |s.threads| && o < |s.queues|
      ensures ProducerOk(s', u, o)
    {
      assert ProducerOk(s, u, o);
    }
  }

  lemma DrainAccount(s: Sys, t: nat, qs: Q.Step, q': Q.State)
    requires InvAccount(s) && DrainShape(s, t, qs, q')
    ensures InvAccount(AfterDrain(s, t, qs, q'))
  {
    var s' := AfterDrain(s, t, qs, q');
    var q := s.queues[t];
    if qs.DrainDeliver? { assert WaitingOk(s, t, |q.delivered|); }
    forall u, p | 0 <= u < |s.threads|
      ensures Carries(s', u, p) <==> Carries(s, u, p)
    {
    }
    forall p
      ensures PlaceOk(s', p) && BitOk(s', p)
    {
      assert PlaceOk(s, p) && BitOk(s, p);
    }
    forall u, p | 0 <= u < |s'.threads|
      ensures CarriedOk(s', u, p)
    {
      assert CarriedOk(s, u, p);
    }
    forall o: nat, k: nat | o < |s'.queues|
      ensures WaitingOk(s', o, k)
    {
      assert WaitingOk(s, o, k);
    }
  }

  lemma DrainStep(s: Sys, t: nat, qs: Q.Step)
    requires Inv(s) && Enabled(s, Drain(t, qs))
    ensures Inv(Apply(s, Drain(t, qs)))
  {
    var q' := Q.Apply(s.queues[t], qs);
    DrainIsShaped(s, t, qs);
    DrainThreads(s, t, qs, q');
    DrainAccount(s, t, qs, q');
  }

  /** What a producer step of FreeQueue does as seen from outside the queue. */
  ghost predicate PushEffect(q: Q.State, q': Q.State, t: nat, qs: Q.Step) {
    && t < |q.producers| == |q'.producers|
    && var pc, pc' := q.producers[t], q'.producers[t];
       && q'.producers == q.producers[t := pc']
       && q'.delivered == q.delivered && q'.consumer == q.consumer
       && |q.claimed| == q.head && |q.delivered| <= |q.claimed|
       && q'.claimed == q.claimed + (if pc'.Store? && pc != Q.Idle then [pc.ptr] else [])
       && (pc == Q.Idle <==> qs.StartPush?)
       && match qs
          case StartPush(_, ptr) => pc' == Q.LoadHead(ptr)
          case PushLoadHead(_) => pc.LoadHead? && ProducerCarries(pc', pc.ptr)
          case PushLoadTail(_) => pc.LoadTail? && (pc' == Q.Idle || ProducerCarries(pc', pc.ptr))
          case PushCas(_, _) => pc.Cas? && (pc'.Store? || ProducerCarries(pc', pc.ptr))
          case PushStore(_) => pc.Store? && pc' == Q.Idle
          case _ => false
  }

  lemma PushStepEffect(q: Q.State, t: nat, qs: Q.Step)
    requires Q.Inv(q) && Q.Enabled(q, qs) && PushStep(t, qs)
    ensures Q.Inv(Q.Apply(q, qs)) && PushEffect(q, Q.Apply(q, qs), t, qs)
  {
    Q.StepInv(q, qs);
  }

  ghost predicate PushShape(s: Sys, t: nat, o: nat, qs: Q.Step, q': Q.State) {
    && InvShape(s) && t < |s.threads| && o < |s.queues| && o != t
    && PushEffect(s.queues[o], q', t, qs)
    && ThreadOk(s, t) && ProducerOk(s, t, o)
    && (if qs.StartPush? then s.threads[t].pc == StartPush(qs.ptr, o) else s.threads[t].pc == Pushing(o))
  }

  lemma PushProducers(s: Sys, t: nat, o: nat, qs: Q.Step, q': Q.State, u: nat, o': nat)
    requires PushShape(s, t, o, qs, q') && u < |s.threads| && o' < |s.queues|
    requires ProducerOk(s, u, o') && ProducerOk(s, t, o')
    ensures ProducerOk(AfterPush(s, t, o, qs, q'), u, o')
  {
  }

  lemma PushThreadOk(s: Sys, t: nat, o: nat, qs: Q.Step, q': Q.State, u: nat)
    requires PushShape(s, t, o, qs, q') && u < |s.threads| && ThreadOk(s, u)
    ensures ThreadOk(AfterPush(s, t, o, qs, q'), u)
  {
  }

  lemma PushThreads(s: Sys, t: nat, o: nat, qs: Q.Step, q': Q.State)
    requires InvThreads(s) && PushShape(s, t, o, qs, q')
    ensures InvThreads(AfterPush(s, t, o, qs, q'))
  {
    var s' := AfterPush(s, t, o, qs, q');
    forall u: nat | u < |s'.threads|
      ensures ThreadOk(s', u)
    {
      PushThreadOk(s, t, o, qs, q', u);
    }
    forall u: nat, o': nat | u < |s.threads| && o' < |s.queues|
      ensures ProducerOk(s', u, o')
    {
      PushProducers(s, t, o, qs, q', u, o');
    }
  }

  /** The object that leaves thread t's hands with this step, or the null pointer. */
  function Released(s: Sys, t: nat, o: nat, qs: Q.Step, q': Q.State): Ptr
    requires o < |s.queues| && t < |s.queues[o].producers| && t < |q'.producers|
    requires qs.PushLoadTail? || qs.PushCas? ==> s.queues[o].producers[t] != Q.Idle
  {
    if qs.PushLoadTail? && q'.producers[t] == Q.Idle then s.queues[o].producers[t].ptr
    else if qs.PushCas? && q'.producers[t].Store? then s.queues[o].producers[t].ptr
    else Q.NULL
  }

  lemma PushCarries(s: Sys, t: nat, o: nat, qs: Q.Step, q': Q.State, u: nat, p: Ptr)
    requires PushShape(s, t, o, qs, q') && u < |s.threads|
    ensures Carries(AfterPush(s, t, o, qs, q'), u, p) <==>
              Carries(s, u, p) && !(u == t && p == Released(s, t, o, qs, q'))
  {
  }

  /** The object released is in flight before the step and queued or dropped after it. */
  lemma PushReleased(s: Sys, t: nat, o: nat, qs: Q.Step, q': Q.State)
    requires InvAccount(s) && PushShape(s, t, o, qs, q')
    ensures var r := Released(s, t, o, qs, q'); var s' := AfterPush(s, t, o, qs, q');
            && s'.bits == s.bits == s'.place.Keys
            && if r == Q.NULL then s'.place == s.place && s'.queues[o].claimed == s.queues[o].claimed && r !in s.place
               else r in s.place && s.place[r] == InFlight(t) && r in s.home && s.home[r] == o
  {
    var r := Released(s, t, o, qs, q');
    assert CarriedOk(s, t, r) && BitOk(s, Q.NULL);
  }

  lemma PushPlaceOk(s: Sys, t: nat, o: nat, qs: Q.Step, q': Q.State, p: Ptr)
    requires InvAccount(s) && PushShape(s, t, o, qs, q')
    ensures PlaceOk(AfterPush(s, t, o, qs, q'), p) && BitOk(AfterPush(s, t, o, qs, q'), p)
  {
    PushReleased(s, t, o, qs, q');
    assert PlaceOk(s, p) && BitOk(s, p);
    if p in s.place && s.place[p].InFlight? {
      PushCarries(s, t, o, qs, q', s.place[p].t, p);
    }
  }

  lemma PushCarriedOk(s: Sys, t: nat, o: nat, qs: Q.Step, q': Q.State, u: nat, p: Ptr)
    requires InvAccount(s) && PushShape(s, t, o, qs, q') && u < |s.threads|
    ensures CarriedOk(AfterPush(s, t, o, qs, q'), u, p)
  {
    PushReleased(s, t, o, qs, q');
    PushCarries(s, t, o, qs, q', u, p);
    assert CarriedOk(s, u, p);
  }

  lemma PushWaitingOk(s: Sys, t: nat, o: nat, qs: Q.Step, q': Q.State, o': nat, k: nat)
    requires InvAccount(s) && PushShape(s, t, o, qs, q') && o' < |s.queues|
    ensures WaitingOk(AfterPush(s, t, o, qs, q'), o', k)
  {
    PushReleased(s, t, o, qs, q');
    assert WaitingOk(s, o', k);
  }

  lemma PushAccount(s: Sys, t: nat, o: nat, qs: Q.Step, q': Q.State)
    requires InvAccount(s) && PushShape(s, t, o, qs, q')
    ensures InvAccount(AfterPush(s, t, o, qs, q'))
  {
    var s' := AfterPush(s, t, o, qs, q');
    PushReleased(s, t, o, qs, q');
    forall p
      ensures PlaceOk(s', p) && BitOk(s', p)
    {
      PushPlaceOk(s, t, o, qs, q', p);
    }
    forall u: nat, p | u < |s'.threads|
      ensures CarriedOk(s', u, p)
    {
      PushCarriedOk(s, t, o, qs, q', u, p);
    }
    forall o': nat, k: nat | o' < |s'.queues|
      ensures WaitingOk(s', o', k)
    {
      PushWaitingOk(s, t, o, qs, q', o', k);
    }
  }

  lemma PushedQueues(s: Sys, t: nat, o: nat, qs: Q.Step, q': Q.State)
    requires InvQueues(s) && PushShape(s, t, o, qs, q') && Q.Inv(q')
    ensures InvQueues(AfterPush(s, t, o, qs, q'))
  {
  }

  lemma PushStepInv(s: Sys, t: nat, qs: Q.Step)
    requires Inv(s) && Enabled(s, Push(t, qs))
    ensures Inv(Apply(s, Push(t, qs)))
  {
    var o := s.threads[t].pc.owner;
    var q' := Q.Apply(s.queues[o], qs);
    PushIsShaped(s, t, qs);
    PushedQueues(s, t, o, qs, q');
    PushThreads(s, t, o, qs, q');
    PushAccount(s, t, o, qs, q');
  }

  lemma StepInv(s: Sys, step: Step)
    requires Inv(s) && Enabled(s, step)
    ensures Inv(Apply(s, step))
  {
    match step
    case BeginMalloc(t) => BeginMallocStep(s, t);
    case BeginFree(t, p) => BeginFreeStep(s, t, p);
    case Local(t, spurious) => LocalStep(s, t, spurious);
    case TakeSlot(t, p) => TakeSlotStep(s, t, p);
    case Drain(t, qs) => DrainStep(s, t, qs);
    case Push(t, qs) => PushStepInv(s, t, qs);
  }

  // ---------------------------------------------------------------------
  // What holds over all interleavings
  // ---------------------------------------------------------------------

  ghost predicate IsRun(run: seq<Sys>, steps: seq<Step>) {
    && |run| == |steps| + 1
    && Init(run[0])
    && forall i {:trigger steps[i]} :: 0 <= i < |steps| ==>
         Enabled(run[i], steps[i]) && run[i + 1] == Apply(run[i], steps[i])
  }

  lemma {:induction false} RunInv(run: seq<Sys>, steps: seq<Step>, n: nat)
    requires IsRun(run, steps) && n < |run|
    ensures Inv(run[n])
  {
    if n == 0 {
      InitInv(run[0]);
    } else {
      RunInv(run, steps, n - 1);
      StepInv(run[n - 1], steps[n - 1]);
    }
  }

  /** Ticket k of queue o holds p and has not been delivered. */
  predicate WaitsAt(s: Sys, o: nat, k: nat, p: Ptr) {
    o < |s.queues| && Waiting(s.queues[o], k) && s.queues[o].claimed[k] == p
  }

  /**
   * A slot's bit is set exactly while its object has a place, and the place is
   * the true one: the object is with the program, or inside free in exactly
   * one thread, or at exactly one ticket of its owner's queue, or was dropped.
   */
  lemma EveryObjectInOnePlace(run: seq<Sys>, steps: seq<Step>, n: nat, p: Ptr)
    requires IsRun(run, steps) && n < |run|
    ensures var s := run[n];
            && (p in s.bits <==> p in s.place)
            && (forall t: nat | t < |s.threads| :: Carries(s, t, p) <==> p in s.place && s.place[p] == InFlight(t))
            && (forall o: nat, k: nat :: WaitsAt(s, o, k, p) <==> p in s.place && s.place[p] == Queued(o, k))
            && (forall o: nat, k: nat :: WaitsAt(s, o, k, p) ==> p in s.home && s.home[p] == o)
  {
    RunInv(run, steps, n);
    var s := run[n];
    assert PlaceOk(s, p);
    forall t: nat | t < |s.threads|
      ensures Carries(s, t, p) <==> p in s.place && s.place[p] == InFlight(t)
    {
      assert CarriedOk(s, t, p);
    }
    forall o: nat, k: nat
      ensures WaitsAt(s, o, k, p) <==> p in s.place && s.place[p] == Queued(o, k)
      ensures WaitsAt(s, o, k, p) ==> p in s.home && s.home[p] == o
    {
      if o < |s.queues| { assert WaitingOk(s, o, k); }
    }
  }

  predicate Cleared(s: Sys, s': Sys, p: Ptr) { p in s.bits && p !in s'.bits }

  predicate Taken(s: Sys, s': Sys, p: Ptr) { p !in s.bits && p in s'.bits }

  /** How one step may change the bit of one slot. */
  ghost predicate BitMoves(s: Sys, s': Sys, step: Step, p: Ptr) {
    && step.t < |s.threads| == |s.queues|
    && (Cleared(s, s', p) ==>
          && p in s.home && s.home[p] == step.t
          && (s.threads[step.t].pc == TryOwn(p)
              || (step == Drain(step.t, Q.DrainDeliver) && WaitsAt(s, step.t, |s.queues[step.t].delivered|, p))))
    && (Taken(s, s', p) <==> step == TakeSlot(step.t, p))
    && (Taken(s, s', p) ==> p in s.home && s.home[p] == step.t)
  }

  lemma BitChanges(s: Sys, step: Step, p: Ptr)
    requires Inv(s) && Enabled(s, step)
    ensures BitMoves(s, Apply(s, step), step, p)
  {
    match step
    case Local(t, spurious) => assert ThreadOk(s, t);
    case Drain(t, qs) =>
      DrainIsShaped(s, t, qs);
      DrainBits(s, t, qs, Q.Apply(s.queues[t], qs), p);
    case Push(t, qs) =>
      PushIsShaped(s, t, qs);
      PushReleased(s, t, s.threads[t].pc.owner, qs, Q.Apply(s.queues[s.threads[t].pc.owner], qs));
    case _ =>
  }

  lemma DrainBits(s: Sys, t: nat, qs: Q.Step, q': Q.State, p: Ptr)
    requires InvAccount(s) && DrainShape(s, t, qs, q')
    ensures BitMoves(s, AfterDrain(s, t, qs, q'), Drain(t, qs), p)
  {
  }

  /**
   * A bit is cleared only by the thread that owns the slot: in its own call of
   * free, or when its drain reaches the object.  A bit is set only by the
   * owner's malloc, which never hands out an object that is still held, inside
   * free, queued or dropped.
   */
  lemma OnlyTheOwnerTouchesASlot(run: seq<Sys>, steps: seq<Step>, n: nat, p: Ptr)
    requires IsRun(run, steps) && n < |steps|
    ensures BitMoves(run[n], run[n + 1], steps[n], p)
    ensures var s := run[n];
            Taken(s, run[n + 1], p) ==>
              && p !in s.place
              && (forall u: nat | u < |s.threads| :: !Carries(s, u, p))
              && (forall o: nat, k: nat :: !WaitsAt(s, o, k, p))
  {
    RunInv(run, steps, n);
    EveryObjectInOnePlace(run, steps, n, p);
    BitChanges(run[n], steps[n], p);
  }

  /** findOwner always reaches the heap a live object belongs to; the "no owner" branch is never taken. */
  lemma OwnerIsFound(run: seq<Sys>, steps: seq<Step>, n: nat, t: nat)
    requires IsRun(run, steps) && n < |run| && t < |run[n].threads|
    ensures !run[n].threads[t].pc.TryAgain?
    ensures var pc := run[n].threads[t].pc;
            pc.StartPush? ==> pc.ptr in run[n].home && pc.owner == run[n].home[pc.ptr] != t
  {
    RunInv(run, steps, n);
    assert ThreadOk(run[n], t);
  }

  /** How often the program called free on p among the first n steps. */
  function Frees(steps: seq<Step>, n: nat, p: Ptr): nat
    requires n <= |steps|
  {
    if n == 0 then 0
    else Frees(steps, n - 1, p) + if steps[n - 1].BeginFree? && steps[n - 1].ptr == p then 1 else 0
  }

  /** How often malloc returned p. */
  function Takes(steps: seq<Step>, n: nat, p: Ptr): nat
    requires n <= |steps|
  {
    if n == 0 then 0
    else Takes(steps, n - 1, p) + if steps[n - 1].TakeSlot? && steps[n - 1].ptr == p then 1 else 0
  }

  /** How often p's bit went from set to clear. */
  function Clears(run: seq<Sys>, n: nat, p: Ptr): nat
    requires n < |run|
  {
    if n == 0 then 0
    else Clears(run, n - 1, p) + if Cleared(run[n - 1], run[n], p) then 1 else 0
  }

  /**
   * Conservation.  Every malloc of a slot is answered by one clearing of its
   * bit, except while the bit is set; every free is answered by one clearing,
   * except while the object is inside free, queued or dropped.
   */
  lemma {:induction false} FreesAreConserved(run: seq<Sys>, steps: seq<Step>, n: nat, p: Ptr)
    requires IsRun(run, steps) && n < |run|
    ensures Takes(steps, n, p) == Clears(run, n, p) + if p in run[n].bits then 1 else 0
    ensures Frees(steps, n, p) == Clears(run, n, p) + if p in run[n].place && run[n].place[p] != Held then 1 else 0
  {
    NothingAtFirst(run, steps);
    hide IsRun, Apply, Enabled, Inv;
    if n > 0 {
      FreesAreConserved(run, steps, n - 1, p);
      StepConserves(run, steps, n - 1, p);
    }
  }

  lemma NothingAtFirst(run: seq<Sys>, steps: seq<Step>)
    requires IsRun(run, steps)
    ensures |run| == |steps| + 1 && run[0].bits == {} && run[0].place == map[]
  {
  }

  predicate InFree(s: Sys, p: Ptr) {
    p in s.place && s.place[p] != Held
  }

  /** One step changes both sides of the balance alike. */
  lemma StepConserves(run: seq<Sys>, steps: seq<Step>, n: nat, p: Ptr)
    requires IsRun(run, steps) && n < |steps|
    ensures var s, s', step := run[n], run[n + 1], steps[n];
            && (if step.TakeSlot? && step.ptr == p then 1 else 0) + (if p in s.bits then 1 else 0)
               == (if Cleared(s, s', p) then 1 else 0) + if p in s'.bits then 1 else 0
    ensures var s, s', step := run[n], run[n + 1], steps[n];
            && (if step.BeginFree? && step.ptr == p then 1 else 0) + (if InFree(s, p) then 1 else 0)
               == (if Cleared(s, s', p) then 1 else 0) + if InFree(s', p) then 1 else 0
  {
    RunInv(run, steps, n);
    EveryObjectInOnePlace(run, steps, n, p);
    EveryObjectInOnePlace(run, steps, n + 1, p);
    BitChanges(run[n], steps[n], p);
    PlaceChanges(run[n], steps[n], p);
  }

  /** How one step may change the place of one object. */
  ghost predicate PlaceMoves(s: Sys, s': Sys, step: Step, p: Ptr) {
    && (p !in s.place && p in s'.place ==> step.TakeSlot? && step.ptr == p && s'.place[p] == Held)
    && (p in s.place && s.place[p] == Held ==>
          p in s'.place && (s'.place[p] != Held <==> step.BeginFree? && step.ptr == p))
    && (p in s.place && s.place[p] != Held && p in s'.place ==> s'.place[p] != Held)
    && (step.BeginFree? && step.ptr == p ==> p in s.place && s.place[p] == Held)
    && (p in s.place && s.place[p] == Dropped ==> p in s'.place && s'.place[p] == Dropped)
  }

  lemma LocalMoves(s: Sys, t: nat, spurious: bool, p: Ptr)
    requires InvThreads(s) && InvAccount(s) && Enabled(s, Local(t, spurious))
    ensures PlaceMoves(s, Apply(s, Local(t, spurious)), Local(t, spurious), p)
  {
    assert ThreadOk(s, t);
    if s.threads[t].pc.TryOwn? { assert CarriedOk(s, t, s.threads[t].pc.ptr); }
  }

  lemma DrainMoves(s: Sys, t: nat, qs: Q.Step, q': Q.State, p: Ptr)
    requires InvAccount(s) && DrainShape(s, t, qs, q')
    ensures PlaceMoves(s, AfterDrain(s, t, qs, q'), Drain(t, qs), p)
  {
    if qs.DrainDeliver? { assert WaitingOk(s, t, |s.queues[t].delivered|); }
  }

  lemma PushMoves(s: Sys, t: nat, o: nat, qs: Q.Step, q': Q.State, p: Ptr)
    requires InvAccount(s) && PushShape(s, t, o, qs, q')
    ensures PlaceMoves(s, AfterPush(s, t, o, qs, q'), Push(t, qs), p)
  {
    PushReleased(s, t, o, qs, q');
  }

  lemma DrainIsShaped(s: Sys, t: nat, qs: Q.Step)
    requires Inv(s) && Enabled(s, Drain(t, qs))
    ensures DrainShape(s, t, qs, Q.Apply(s.queues[t], qs)) && Q.Inv(Q.Apply(s.queues[t], qs))
  {
    OwnerStepEffect(s.queues[t], qs);
    assert ThreadOk(s, t);
    if qs.DrainDeliver? {
      assert WaitingOk(s, t, |s.queues[t].delivered|);
    }
  }

  lemma PushIsShaped(s: Sys, t: nat, qs: Q.Step)
    requires Inv(s) && Enabled(s, Push(t, qs))
    ensures var o := s.threads[t].pc.owner;
            PushShape(s, t, o, qs, Q.Apply(s.queues[o], qs)) && Q.Inv(Q.Apply(s.queues[o], qs))
  {
    var o := s.threads[t].pc.owner;
    assert ThreadOk(s, t) && ProducerOk(s, t, o);
    PushStepEffect(s.queues[o], t, qs);
  }

  lemma PlaceChanges(s: Sys, step: Step, p: Ptr)
    requires Inv(s) && Enabled(s, step)
    ensures PlaceMoves(s, Apply(s, step), step, p)
  {
    match step
    case Local(t, spurious) => LocalMoves(s, t, spurious, p);
    case Drain(t, qs) =>
      DrainIsShaped(s, t, qs);
      DrainMoves(s, t, qs, Q.Apply(s.queues[t], qs), p);
    case Push(t, qs) =>
      var o := s.threads[t].pc.owner;
      PushIsShaped(s, t, qs);
      PushMoves(s, t, o, qs, Q.Apply(s.queues[o], qs), p);
    case _ =>
  }

  /** An object whose push found the queue full keeps its bit for ever: the slot is never reused. */
  lemma DroppedForever(run: seq<Sys>, steps: seq<Step>, i: nat, j: nat, p: Ptr)
    requires IsRun(run, steps) && i <= j < |run|
    requires p in run[i].place && run[i].place[p] == Dropped
    ensures p in run[j].place && run[j].place[p] == Dropped && p in run[j].bits
  {
    DroppedStays(run, steps, i, j, p);
    RunInv(run, steps, j);
  }

  lemma {:induction false} DroppedStays(run: seq<Sys>, steps: seq<Step>, i: nat, j: nat, p: Ptr)
    requires IsRun(run, steps) && i <= j < |run|
    requires p in run[i].place && run[i].place[p] == Dropped
    ensures p in run[j].place && run[j].place[p] == Dropped
  {
    if i < j {
      DroppedStays(run, steps, i, j - 1, p);
      DroppedOneStep(run, steps, j - 1, p);
    }
  }

  lemma DroppedOneStep(run: seq<Sys>, steps: seq<Step>, i: nat, p: Ptr)
    requires IsRun(run, steps) && i < |steps|
    requires p in run[i].place && run[i].place[p] == Dropped
    ensures p in run[i + 1].place && run[i + 1].place[p] == Dropped
  {
    RunInv(run, steps, i);
    PlaceChanges(run[i], steps[i], p);
  }

  /** The step is the load of the tail by the thread that frees p, and it finds the ring full or its own head outrun. */
  predicate FindsFull(s: Sys, step: Step, p: Ptr)
    requires Enabled(s, step)
  {
    && step.Push? && step.step.PushLoadTail?
    && var q := s.queues[s.threads[step.t].pc.owner];
       var pc := q.producers[step.t];
       && pc.ptr == p
       && (pc.head < q.tail || pc.head == q.head == q.tail + q.cap)
  }

  predicate IsDropped(s: Sys, p: Ptr) {
    p in s.place && s.place[p] == Dropped
  }

  /** No step but such a load drops an object, and every such load does. */
  lemma DroppedIff(run: seq<Sys>, steps: seq<Step>, n: nat, p: Ptr)
    requires IsRun(run, steps) && n < |steps|
    ensures IsDropped(run[n + 1], p) && !IsDropped(run[n], p) <==> FindsFull(run[n], steps[n], p)
  {
    RunInv(run, steps, n);
    DropChanges(run[n], steps[n], p);
  }

  lemma DropChanges(s: Sys, step: Step, p: Ptr)
    requires Inv(s) && Enabled(s, step)
    ensures IsDropped(Apply(s, step), p) && !IsDropped(s, p) <==> FindsFull(s, step, p)
  {
    match step
    case Local(t, spurious) => LocalMoves(s, t, spurious, p);
    case Drain(t, qs) => DrainIsShaped(s, t, qs);
    case Push(t, qs) => PushDrops(s, t, qs, p);
    case _ =>
  }

  lemma PushDrops(s: Sys, t: nat, qs: Q.Step, p: Ptr)
    requires Inv(s) && Enabled(s, Push(t, qs))
    ensures IsDropped(Apply(s, Push(t, qs)), p) && !IsDropped(s, p) <==> FindsFull(s, Push(t, qs), p)
  {
    var o := s.threads[t].pc.owner;
    var q' := Q.Apply(s.queues[o], qs);
    PushIsShaped(s, t, qs);
    PushReleased(s, t, o, qs, q');
    if qs.PushLoadTail? { Q.FullIff(s.queues[o], t); }
  }

  /** The id the n-th heap to be created gets. */
  function ThreadId(n: nat): nat {
    n % MAX_THREADS
  }

  /** Each queue has one consumer, because ids are not shared, if and only if there are at most MAX_THREADS heaps. */
  lemma IdsAreDistinctIff(heaps: nat)
    ensures (forall i: nat, j: nat | i < j < heaps :: ThreadId(i) != ThreadId(j)) <==> heaps <= MAX_THREADS
  {
    if heaps > MAX_THREADS {
      assert ThreadId(0) == ThreadId(MAX_THREADS);
    }
  }
}
