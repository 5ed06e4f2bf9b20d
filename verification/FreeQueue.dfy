/**
 * The lock-free queue of objects freed by other threads
 * (PerThreadFreeQueue in src/include/globalfreepool.h): many producers push,
 * one owner drains.
 *
 * Every atomic load, store and compare-and-swap is one step of a sequentially
 * consistent machine.  The fields claimed and delivered are history: claimed[k]
 * is the pointer whose push won ticket k, delivered is what the drain callback
 * has been given so far.
 */
module FreeQueue {
  import opened PowersOfTwo

  type Ptr = nat

  const NULL: Ptr := 0

  /** size_t arithmetic wraps around at this value. */
  const SIZE_MODULUS: nat := 0x1_0000_0000_0000_0000

  /** Subtraction of two size_t values. */
  function SizeSub(a: nat, b: nat): nat
    requires a < SIZE_MODULUS && b < SIZE_MODULUS
  {
    if a >= b then a - b else a - b + SIZE_MODULUS
  }

  /** What a producing thread does next, with the local variables of push. */
  datatype Producer =
    | Idle
    | LoadHead(ptr: Ptr)
    | LoadTail(ptr: Ptr, head: nat)
    | Cas(ptr: Ptr, head: nat)
    | Store(ptr: Ptr, ticket: nat)

  /** What the owner does next, with the local variables of drain. */
  datatype Consumer =
    | Resting
    | ReadHead(tail: nat)
    | Scan(tail: nat, head: nat)
    | Clear(tail: nat, head: nat, ptr: Ptr)
    | Deliver(tail: nat, head: nat, ptr: Ptr)
    | Publish(tail: nat)

  datatype State = State(
    cap: nat,
    head: nat,
    tail: nat,
    slots: seq<Ptr>,
    producers: seq<Producer>,
    consumer: Consumer,
    claimed: seq<Ptr>,
    delivered: seq<Ptr>)

  datatype Step =
    | StartPush(p: nat, ptr: Ptr)
    | PushLoadHead(p: nat)
    | PushLoadTail(p: nat)
    | PushCas(p: nat, spurious: bool)
    | PushStore(p: nat)
    | DrainLoadTail
    | DrainLoadHead
    | DrainLoadSlot
    | DrainClear
    | DrainDeliver
    | DrainPublish

  ghost predicate Init(s: State) {
    && s.cap > 0 && s.cap < SIZE_MODULUS
    && s.head == s.tail == 0
    && s.slots == seq(s.cap, _ => NULL)
    && (forall p :: 0 <= p < |s.producers| ==> s.producers[p] == Idle)
    && s.consumer == Resting
    && s.claimed == [] && s.delivered == []
  }

  /** The full test of push: the stale head minus the tail just loaded. */
  predicate LooksFull(s: State, head: nat)
    requires head < SIZE_MODULUS && s.tail < SIZE_MODULUS
  {
    SizeSub(head, s.tail) >= s.cap
  }

  /** Which steps a state offers.  Counters are assumed not to reach 2^64. */
  predicate Enabled(s: State, step: Step) {
    && s.cap > 0 && |s.slots| == s.cap
    && s.head < SIZE_MODULUS && s.tail < SIZE_MODULUS
    && match step
       case StartPush(p, ptr) => p < |s.producers| && s.producers[p] == Idle && ptr != NULL
       case PushLoadHead(p) => p < |s.producers| && s.producers[p].LoadHead?
       case PushLoadTail(p) =>
         p < |s.producers| && s.producers[p].LoadTail? && s.producers[p].head < SIZE_MODULUS
       case PushCas(p, _) => p < |s.producers| && s.producers[p].Cas? && s.head + 1 + s.cap <= SIZE_MODULUS
       case PushStore(p) => p < |s.producers| && s.producers[p].Store?
       case DrainLoadTail => s.consumer == Resting
       case DrainLoadHead => s.consumer.ReadHead?
       case DrainLoadSlot => s.consumer.Scan?
       case DrainClear => s.consumer.Clear?
       case DrainDeliver => s.consumer.Deliver?
       case DrainPublish => s.consumer.Publish?
  }

  function WithProducer(s: State, p: nat, pc: Producer): State
    requires p < |s.producers|
  {
    s.(producers := s.producers[p := pc])
  }

  function Apply(s: State, step: Step): State
    requires Enabled(s, step)
  {
    match step
    case StartPush(p, ptr) => WithProducer(s, p, LoadHead(ptr))
    case PushLoadHead(p) => WithProducer(s, p, LoadTail(s.producers[p].ptr, s.head))
    case PushLoadTail(p) =>
      var pc := s.producers[p];
      if LooksFull(s, pc.head) then WithProducer(s, p, Idle)  // returns false
      else WithProducer(s, p, Cas(pc.ptr, pc.head))
    case PushCas(p, spurious) =>
      var pc := s.producers[p];
      if s.head == pc.head && !spurious then
        WithProducer(s, p, Store(pc.ptr, pc.head)).(head := s.head + 1, claimed := s.claimed + [pc.ptr])
      else
        WithProducer(s, p, LoadTail(pc.ptr, s.head))
    case PushStore(p) =>
      var pc := s.producers[p];
      WithProducer(s, p, Idle).(slots := s.slots[pc.ticket % s.cap := pc.ptr])  // returns true
    case DrainLoadTail => s.(consumer := ReadHead(s.tail))
    case DrainLoadHead => s.(consumer := Scan(s.consumer.tail, s.head))
    case DrainLoadSlot =>
      var Scan(tail, head) := s.consumer;
      if tail >= head then s.(consumer := Publish(tail))
      else
        var ptr := s.slots[tail % s.cap];
        if ptr == NULL then s.(consumer := Publish(tail))
        else s.(consumer := Clear(tail, head, ptr))
    case DrainClear =>
      var Clear(tail, head, ptr) := s.consumer;
      s.(slots := s.slots[tail % s.cap := NULL], consumer := Deliver(tail, head, ptr))
    case DrainDeliver =>
      var Deliver(tail, head, ptr) := s.consumer;
      s.(delivered := s.delivered + [ptr], consumer := Scan(tail + 1, head))
    case DrainPublish => s.(tail := s.consumer.tail, consumer := Resting)
  }

  // ---------------------------------------------------------------------
  // The inductive invariant
  // ---------------------------------------------------------------------

  /** The owner's own tail: everything before it has been delivered. */
  function Cursor(s: State): nat {
    if s.consumer == Resting then s.tail else s.consumer.tail
  }

  /** Everything before the front has left the ring. */
  function Front(s: State): nat {
    if s.consumer.Deliver? then s.consumer.tail + 1 else Cursor(s)
  }

  /** Ticket k is claimed but its slot is not written yet. */
  ghost predicate Pending(s: State, k: nat) {
    exists p :: 0 <= p < |s.producers| && HoldsTicket(s, p, k)
  }

  predicate HoldsTicket(s: State, p: nat, k: nat)
    requires p < |s.producers|
  {
    s.producers[p].Store? && s.producers[p].ticket == k
  }

  ghost predicate ProducerOk(s: State, p: nat)
    requires p < |s.producers|
  {
    match s.producers[p]
    case Idle => true
    case LoadHead(ptr) => ptr != NULL
    case LoadTail(ptr, h) => ptr != NULL && h <= s.head
    case Cas(ptr, h) => ptr != NULL && h <= s.head && h < s.tail + s.cap
    case Store(ptr, k) => Front(s) <= k < s.head && k < |s.claimed| && s.claimed[k] == ptr
  }

  ghost predicate ConsumerOk(s: State) {
    && s.tail <= Cursor(s) <= Front(s) <= s.head
    && (s.consumer.Scan? ==> s.consumer.tail <= s.consumer.head <= s.head)
    && (s.consumer.Clear? || s.consumer.Deliver? ==>
          && s.consumer.tail < s.consumer.head <= s.head == |s.claimed|
          && s.consumer.ptr == s.claimed[s.consumer.tail])
    && (s.consumer.Clear? ==> !Pending(s, s.consumer.tail))
  }

  /** What the ring cell of ticket k must hold, for k in the window of one lap. */
  ghost predicate SlotOk(s: State, k: nat)
    requires s.cap > 0 && |s.slots| == s.cap
  {
    s.slots[k % s.cap] == if k < |s.claimed| && !Pending(s, k) then s.claimed[k] else NULL
  }

  ghost predicate Inv(s: State) {
    && s.cap > 0 && |s.slots| == s.cap
    && s.head + s.cap <= SIZE_MODULUS
    && |s.claimed| == s.head
    && (forall k :: 0 <= k < |s.claimed| ==> s.claimed[k] != NULL)
    && s.head <= s.tail + s.cap
    && ConsumerOk(s)
    && s.delivered == s.claimed[..Cursor(s)]
    && (forall p :: 0 <= p < |s.producers| ==> ProducerOk(s, p))
    && (forall p, q, k | 0 <= p < |s.producers| && 0 <= q < |s.producers| ::
          HoldsTicket(s, p, k) && HoldsTicket(s, q, k) ==> p == q)
    && (forall k :: Front(s) <= k < Front(s) + s.cap ==> SlotOk(s, k))
  }

  lemma InitInv(s: State)
    requires Init(s)
    ensures Inv(s)
  {
  }

  // ---------------------------------------------------------------------
  // Every step keeps the invariant
  // ---------------------------------------------------------------------

  /** A change of one producer that neither claims nor writes leaves the ring facts alone. */
  lemma QuietProducerStep(s: State, p: nat, pc: Producer)
    requires Inv(s) && p < |s.producers| && !s.producers[p].Store? && !pc.Store?
    requires ProducerOk(WithProducer(s, p, pc), p)
    ensures Inv(WithProducer(s, p, pc))
  {
    var s' := WithProducer(s, p, pc);
    forall q, k: nat | 0 <= q < |s.producers|
      ensures HoldsTicket(s', q, k) <==> HoldsTicket(s, q, k)
    {
    }
    forall k: nat
      ensures Pending(s', k) <==> Pending(s, k)
    {
      if Pending(s, k) {
        var q :| 0 <= q < |s.producers| && HoldsTicket(s, q, k);
        assert HoldsTicket(s', q, k);
      }
      if Pending(s', k) {
        var q :| 0 <= q < |s.producers| && HoldsTicket(s', q, k);
        assert HoldsTicket(s, q, k);
      }
    }
    forall k | Front(s) <= k < Front(s) + s.cap
      ensures SlotOk(s', k)
    {
      assert SlotOk(s, k);
    }
    forall q | 0 <= q < |s.producers|
      ensures ProducerOk(s', q)
    {
      assert ProducerOk(s, q);
    }
  }

  lemma ClaimStep(s: State, p: nat)
    requires Inv(s) && Enabled(s, PushCas(p, false)) && s.head == s.producers[p].head
    ensures Inv(Apply(s, PushCas(p, false)))
  {
    var s' := Apply(s, PushCas(p, false));
    assert ProducerOk(s, p);
    assert HoldsTicket(s', p, s.head);
    forall q, k: nat | 0 <= q < |s.producers|
      ensures HoldsTicket(s', q, k) <==> HoldsTicket(s, q, k) || (q == p && k == s.head)
      ensures HoldsTicket(s, q, k) ==> k < s.head
    {
      assert ProducerOk(s, q);
    }
    forall k: nat
      ensures Pending(s', k) <==> Pending(s, k) || k == s.head
    {
      if Pending(s, k) {
        var q :| 0 <= q < |s.producers| && HoldsTicket(s, q, k);
        assert HoldsTicket(s', q, k);
      }
    }
    forall k | Front(s) <= k < Front(s) + s.cap
      ensures SlotOk(s', k)
    {
      assert SlotOk(s, k);
    }
    forall q | 0 <= q < |s.producers|
      ensures ProducerOk(s', q)
    {
      assert ProducerOk(s, q);
    }
  }

  lemma StoreStep(s: State, p: nat)
    requires Inv(s) && Enabled(s, PushStore(p))
    ensures Inv(Apply(s, PushStore(p)))
  {
    var s' := Apply(s, PushStore(p));
    var ticket := s.producers[p].ticket;
    assert ProducerOk(s, p) && HoldsTicket(s, p, ticket);
    forall q, k: nat | 0 <= q < |s.producers|
      ensures HoldsTicket(s', q, k) <==> HoldsTicket(s, q, k) && k != ticket
    {
    }
    forall k: nat
      ensures Pending(s', k) <==> Pending(s, k) && k != ticket
    {
      if Pending(s, k) && k != ticket {
        var q :| 0 <= q < |s.producers| && HoldsTicket(s, q, k);
        assert HoldsTicket(s', q, k);
      }
    }
    forall k | Front(s) <= k < Front(s) + s.cap
      ensures SlotOk(s', k)
    {
      assert SlotOk(s, k);
      if k % s.cap == ticket % s.cap {
        SameRemainder(k, ticket, s.cap);
      }
    }
    forall q | 0 <= q < |s.producers|
      ensures ProducerOk(s', q)
    {
      assert ProducerOk(s, q);
    }
  }

  /** The owner's steps leave the producers alone, so Pending does not change. */
  lemma SamePending(s: State, s': State)
    requires s'.producers == s.producers
    ensures forall k: nat :: Pending(s', k) <==> Pending(s, k)
  {
    forall k: nat
      ensures Pending(s', k) <==> Pending(s, k)
    {
      if Pending(s, k) {
        var q :| 0 <= q < |s.producers| && HoldsTicket(s, q, k);
        assert HoldsTicket(s', q, k);
      }
      if Pending(s', k) {
        var q :| 0 <= q < |s.producers| && HoldsTicket(s', q, k);
        assert HoldsTicket(s, q, k);
      }
    }
  }

  /** The cell just cleared is the one ticket tail + cap will use next. */
  lemma ClearSlots(s: State, k: nat)
    requires Inv(s) && Enabled(s, DrainClear)
    requires s.consumer.tail + 1 <= k < s.consumer.tail + 1 + s.cap
    ensures SlotOk(Apply(s, DrainClear), k)
  {
    var t := s.consumer.tail;
    SamePending(s, Apply(s, DrainClear));
    NextRemainder(t, s.cap);
    if k < t + s.cap {
      assert SlotOk(s, k);
      if k % s.cap == t % s.cap {
        SameRemainder(k, t, s.cap);
      }
    }
  }

  lemma ClearStep(s: State)
    requires Inv(s) && Enabled(s, DrainClear)
    ensures Inv(Apply(s, DrainClear))
  {
    var s' := Apply(s, DrainClear);
    SamePending(s, s');
    forall k: nat | Front(s') <= k < Front(s') + s.cap
      ensures SlotOk(s', k)
    {
      ClearSlots(s, k);
    }
    forall q: nat | q < |s.producers|
      ensures ProducerOk(s', q)
    {
      assert ProducerOk(s, q);
      if s.producers[q].Store? {
        assert HoldsTicket(s, q, s.producers[q].ticket);
      }
    }
    forall p, q, k | 0 <= p < |s.producers| && 0 <= q < |s.producers| && HoldsTicket(s', p, k) && HoldsTicket(s', q, k)
      ensures p == q
    {
      assert HoldsTicket(s, p, k) && HoldsTicket(s, q, k);
    }
  }

  /** The owner's steps that only load, deliver or publish. */
  lemma QuietOwnerStep(s: State, s': State)
    requires Inv(s)
    requires s' == s.(consumer := s'.consumer, tail := s'.tail, delivered := s'.delivered)
    requires s.tail <= s'.tail && Front(s') == Front(s)
    requires ConsumerOk(s') && s'.delivered == s.claimed[..Cursor(s')]
    ensures Inv(s')
  {
    SamePending(s, s');
    forall k | Front(s') <= k < Front(s') + s.cap
      ensures SlotOk(s', k)
    {
      assert SlotOk(s, k);
    }
    forall q | 0 <= q < |s.producers|
      ensures ProducerOk(s', q)
    {
      assert ProducerOk(s, q);
    }
    forall p, q, k | 0 <= p < |s.producers| && 0 <= q < |s.producers| && HoldsTicket(s', p, k) && HoldsTicket(s', q, k)
      ensures p == q
    {
      assert HoldsTicket(s, p, k) && HoldsTicket(s, q, k);
    }
  }

  lemma OwnerStep(s: State, step: Step)
    requires Inv(s) && Enabled(s, step)
    requires step in {DrainLoadTail, DrainLoadHead, DrainLoadSlot, DrainDeliver, DrainPublish}
    ensures Inv(Apply(s, step))
  {
    var s' := Apply(s, step);
    SamePending(s, s');
    if step == DrainLoadSlot && s.consumer.tail < s.consumer.head {
      assert SlotOk(s, s.consumer.tail);
    }
    QuietOwnerStep(s, s');
  }

  lemma StepInv(s: State, step: Step)
    requires Inv(s) && Enabled(s, step)
    ensures Inv(Apply(s, step))
  {
    match step
    case StartPush(p, ptr) => QuietProducerStep(s, p, LoadHead(ptr));
    case PushLoadHead(p) =>
      assert ProducerOk(s, p);
      QuietProducerStep(s, p, LoadTail(s.producers[p].ptr, s.head));
    case PushLoadTail(p) =>
      assert ProducerOk(s, p);
      var pc := s.producers[p];
      QuietProducerStep(s, p, if LooksFull(s, pc.head) then Idle else Cas(pc.ptr, pc.head));
    case PushCas(p, spurious) =>
      assert ProducerOk(s, p);
      var pc := s.producers[p];
      if s.head == pc.head && !spurious {
        ClaimStep(s, p);
      } else {
        QuietProducerStep(s, p, LoadTail(pc.ptr, s.head));
      }
    case PushStore(p) => StoreStep(s, p);
    case DrainClear => ClearStep(s);
    case _ => OwnerStep(s, step);
  }

  // ---------------------------------------------------------------------
  // What holds over all interleavings
  // ---------------------------------------------------------------------

  ghost predicate IsRun(run: seq<State>, steps: seq<Step>) {
    && |run| == |steps| + 1
    && Init(run[0])
    && forall i :: 0 <= i < |steps| ==> Enabled(run[i], steps[i]) && run[i + 1] == Apply(run[i], steps[i])
  }

  lemma {:induction false} RunInv(run: seq<State>, steps: seq<Step>, n: nat)
    requires IsRun(run, steps) && n < |run|
    ensures Inv(run[n])
  {
    if n == 0 {
      InitInv(run[0]);
    } else {
      RunInv(run, steps, n - 1);
      StepInv(run[n - 1], steps[n - 1]);
    }
  }

  lemma {:induction false} HistoryGrows(run: seq<State>, steps: seq<Step>, i: nat, j: nat)
    requires IsRun(run, steps) && i <= j < |run|
    ensures run[i].claimed <= run[j].claimed && run[i].delivered <= run[j].delivered
  {
    if i < j {
      HistoryGrows(run, steps, i, j - 1);
      assert run[j] == Apply(run[j - 1], steps[j - 1]);
    }
  }

  /** Where a claimed pointer is: handed to the callback, readable in the ring, or not written yet. */
  ghost predicate DeliveredAt(s: State, k: nat) {
    k < |s.delivered| && k < |s.claimed| && s.delivered[k] == s.claimed[k]
  }

  ghost predicate InRing(s: State, k: nat) {
    && |s.delivered| <= k < |s.claimed| && s.cap > 0 && |s.slots| == s.cap
    && if s.consumer.Deliver? && s.consumer.tail == k then s.consumer.ptr == s.claimed[k]
       else k >= Front(s) && s.slots[k % s.cap] == s.claimed[k] != NULL
  }

  /**
   * At every moment of every interleaving, what the callback has received is a
   * prefix of the claimed pointers in ticket order, and every claimed pointer
   * is in exactly one of three places.  Since both histories only grow, a
   * pointer is delivered once and is never lost.
   */
  lemma DeliveredInTicketOrder(run: seq<State>, steps: seq<Step>, i: nat, j: nat)
    requires IsRun(run, steps) && i <= j < |run|
    ensures run[j].delivered <= run[j].claimed
    ensures run[i].delivered <= run[j].delivered && run[i].claimed <= run[j].claimed
    ensures forall k: nat | k < |run[j].claimed| ::
              var s := run[j];
              && (DeliveredAt(s, k) || InRing(s, k) || Pending(s, k))
              && !(DeliveredAt(s, k) && InRing(s, k))
              && !(Pending(s, k) && (DeliveredAt(s, k) || InRing(s, k)))
  {
    RunInv(run, steps, j);
    HistoryGrows(run, steps, i, j);
    var s := run[j];
    forall k: nat | k < |s.claimed|
      ensures DeliveredAt(s, k) || InRing(s, k) || Pending(s, k)
      ensures DeliveredAt(s, k) || InRing(s, k) ==> !Pending(s, k)
    {
      if k >= Front(s) { assert SlotOk(s, k); }
      if Pending(s, k) {
        var p :| 0 <= p < |s.producers| && HoldsTicket(s, p, k);
        assert ProducerOk(s, p);
      }
    }
  }

  /** A producer about to write finds its cell empty, and no other producer shares the ticket. */
  lemma StoreHitsEmptyCell(run: seq<State>, steps: seq<Step>, n: nat, p: nat)
    requires IsRun(run, steps) && n < |run|
    requires p < |run[n].producers| && run[n].producers[p].Store?
    ensures var s := run[n]; var k := s.producers[p].ticket;
            && |s.slots| == s.cap > 0 && s.slots[k % s.cap] == NULL
            && |s.delivered| <= k < s.head
            && forall q: nat | q < |s.producers| && HoldsTicket(s, q, k) :: q == p
  {
    RunInv(run, steps, n);
    var s := run[n];
    assert ProducerOk(s, p) && HoldsTicket(s, p, s.producers[p].ticket);
    assert SlotOk(s, s.producers[p].ticket);
  }

  /** push answers "full" exactly when one lap is outstanding or the head it read is already behind the tail. */
  lemma FullMeansFullOrStale(run: seq<State>, steps: seq<Step>, n: nat, p: nat)
    requires IsRun(run, steps) && n < |run|
    requires p < |run[n].producers| && run[n].producers[p].LoadTail?
    ensures var s := run[n]; var h := s.producers[p].head;
            && h < SIZE_MODULUS && s.tail < SIZE_MODULUS
            && (LooksFull(s, h) <==> h < s.tail || (h == s.head == s.tail + s.cap))
  {
    RunInv(run, steps, n);
    FullIff(run[n], p);
  }

  lemma FullIff(s: State, p: nat)
    requires Inv(s) && p < |s.producers| && s.producers[p].LoadTail?
    ensures var h := s.producers[p].head;
            && h < SIZE_MODULUS && s.tail < SIZE_MODULUS
            && (LooksFull(s, h) <==> h < s.tail || (h == s.head == s.tail + s.cap))
  {
    assert ProducerOk(s, p);
  }

  /** Some run ends in this state. */
  ghost predicate Reachable(s: State) {
    exists run, steps :: IsRun(run, steps) && run[|steps|] == s
  }

  lemma StartReachable(s: State)
    requires Init(s)
    ensures Reachable(s)
  {
    assert IsRun([s], []);
  }

  lemma StepReachable(s: State, step: Step, s': State)
    requires Reachable(s) && Enabled(s, step) && s' == Apply(s, step)
    ensures Reachable(s')
  {
    var run, steps :| IsRun(run, steps) && run[|steps|] == s;
    assert IsRun(run + [s'], steps + [step]);
  }

  /** A state of the run below: what producers 0 and 1 and the owner do next, and what is in the first cell. */
  function Scene(cap: nat, head: nat, tail: nat, cell: Ptr, p0: Producer, p1: Producer, c: Consumer,
                 claimed: seq<Ptr>, delivered: seq<Ptr>): State
    requires cap > 0
  {
    State(cap, head, tail, [cell] + seq(cap - 1, _ => NULL), [p0, p1], c, claimed, delivered)
  }

  /** Producer 0 has loaded the head of the empty ring. */
  lemma StaleLoad(cap: nat, p: Ptr)
    requires 0 < cap < SIZE_MODULUS / 2 && p != NULL
    ensures Reachable(Scene(cap, 0, 0, NULL, LoadTail(p, 0), Idle, Resting, [], []))
  {
    var s0 := Scene(cap, 0, 0, NULL, Idle, Idle, Resting, [], []);
    assert s0.slots == seq(cap, _ => NULL);
    StartReachable(s0);
    var s1 := Scene(cap, 0, 0, NULL, LoadHead(p), Idle, Resting, [], []);
    StepReachable(s0, StartPush(0, p), s1);
    StepReachable(s1, PushLoadHead(0), Scene(cap, 0, 0, NULL, LoadTail(p, 0), Idle, Resting, [], []));
  }

  /** Then producer 1 pushes. */
  lemma StalePush(cap: nat, p: Ptr, q: Ptr)
    requires 0 < cap < SIZE_MODULUS / 2 && p != NULL && q != NULL
    ensures Reachable(Scene(cap, 1, 0, q, LoadTail(p, 0), Idle, Resting, [q], []))
  {
    StaleLoad(cap, p);
    var s := Scene(cap, 0, 0, NULL, LoadTail(p, 0), Idle, Resting, [], []);
    var s1 := s.(producers := [LoadTail(p, 0), LoadHead(q)]);
    StepReachable(s, StartPush(1, q), s1);
    var s2 := s.(producers := [LoadTail(p, 0), LoadTail(q, 0)]);
    StepReachable(s1, PushLoadHead(1), s2);
    var s3 := s.(producers := [LoadTail(p, 0), Cas(q, 0)]);
    StepReachable(s2, PushLoadTail(1), s3);
    var s4 := Scene(cap, 1, 0, NULL, LoadTail(p, 0), Store(q, 0), Resting, [q], []);
    StepReachable(s3, PushCas(1, false), s4);
    DivModUnique(0, cap, 0, 0);
    StepReachable(s4, PushStore(1), Scene(cap, 1, 0, q, LoadTail(p, 0), Idle, Resting, [q], []));
  }

  /** The owner drains what producer 1 has pushed. */
  lemma StaleDrain(cap: nat, p: Ptr, q: Ptr)
    requires 0 < cap < SIZE_MODULUS / 2 && p != NULL && q != NULL
    ensures Reachable(Scene(cap, 1, 1, NULL, LoadTail(p, 0), Idle, Resting, [q], [q]))
  {
    StalePush(cap, p, q);
    var s := Scene(cap, 1, 0, q, LoadTail(p, 0), Idle, Resting, [q], []);
    var s1 := s.(consumer := ReadHead(0));
    StepReachable(s, DrainLoadTail, s1);
    var s2 := s.(consumer := Scan(0, 1));
    StepReachable(s1, DrainLoadHead, s2);
    DivModUnique(0, cap, 0, 0);
    var s3 := s.(consumer := Clear(0, 1, q));
    StepReachable(s2, DrainLoadSlot, s3);
    var s4 := Scene(cap, 1, 0, NULL, LoadTail(p, 0), Idle, Deliver(0, 1, q), [q], []);
    StepReachable(s3, DrainClear, s4);
    var s5 := s4.(consumer := Scan(1, 1), delivered := [q]);
    StepReachable(s4, DrainDeliver, s5);
    var s6 := s5.(consumer := Publish(1));
    StepReachable(s5, DrainLoadSlot, s6);
    StepReachable(s6, DrainPublish, Scene(cap, 1, 1, NULL, LoadTail(p, 0), Idle, Resting, [q], [q]));
  }

  /**
   * The stale case does happen, whatever the capacity: producer 0 loads the
   * head, producer 1 pushes and the owner drains; producer 0 then finds the
   * empty ring full and gives up.
   */
  lemma StaleHeadLooksFull(cap: nat, p: Ptr, q: Ptr) returns (s: State)
    requires 0 < cap < SIZE_MODULUS / 2 && p != NULL && q != NULL
    ensures Reachable(s) && s.cap == cap
    ensures s.slots == seq(cap, _ => NULL) && s.head == s.tail == |s.claimed| && s.delivered == s.claimed
    ensures Enabled(s, PushLoadTail(0)) && s.producers[0] == LoadTail(p, 0)
    ensures LooksFull(s, 0) && Apply(s, PushLoadTail(0)) == s.(producers := s.producers[0 := Idle])
  {
    s := Scene(cap, 1, 1, NULL, LoadTail(p, 0), Idle, Resting, [q], [q]);
    StaleDrain(cap, p, q);
    assert s.slots == seq(cap, _ => NULL);
  }

  // ---------------------------------------------------------------------
  // The owner running alone
  // ---------------------------------------------------------------------

  ghost predicate Reaches(s: State, steps: seq<Step>, s': State)
    decreases |steps|
  {
    if steps == [] then s == s'
    else Enabled(s, steps[0]) && Reaches(Apply(s, steps[0]), steps[1..], s')
  }

  /** Drain stops at m: the first ticket that is not written yet, or the head. */
  ghost predicate StopsAt(s: State, m: nat) {
    && Cursor(s) <= m <= s.head
    && (forall k :: Cursor(s) <= k < m ==> !Pending(s, k))
    && (m < s.head ==> Pending(s, m))
  }

  predicate OwnerStepOnly(step: Step) {
    !(step.StartPush? || step.PushLoadHead? || step.PushLoadTail? || step.PushCas? || step.PushStore?)
  }

  lemma Prepend(s: State, step: Step, rest: seq<Step>, s': State)
    requires Enabled(s, step) && Reaches(Apply(s, step), rest, s')
    ensures Reaches(s, [step] + rest, s')
  {
    assert ([step] + rest)[1..] == rest;
  }

  /** The state after one turn of the drain loop. */
  function AfterTurn(s: State): State
    requires s.consumer.Scan? && s.consumer.tail < |s.claimed| && s.cap > 0 && |s.slots| == s.cap
  {
    var Scan(t, h) := s.consumer;
    s.(slots := s.slots[t % s.cap := NULL], delivered := s.claimed[..t + 1], consumer := Scan(t + 1, h))
  }

  /** One turn of the drain loop at a ticket that is written. */
  lemma DrainTurn(s: State)
    requires Inv(s) && s.consumer.Scan? && s.consumer.tail < s.consumer.head
    requires !Pending(s, s.consumer.tail)
    ensures s.slots[s.consumer.tail % s.cap] == s.claimed[s.consumer.tail] != NULL
    ensures Enabled(s, DrainLoadSlot) && Enabled(Apply(s, DrainLoadSlot), DrainClear)
    ensures var s2 := Apply(Apply(s, DrainLoadSlot), DrainClear);
            Enabled(s2, DrainDeliver) && Apply(s2, DrainDeliver) == AfterTurn(s)
    ensures Inv(AfterTurn(s))
  {
    var t := s.consumer.tail;
    assert SlotOk(s, t);
    StepInv(s, DrainLoadSlot);
    var s1 := Apply(s, DrainLoadSlot);
    StepInv(s1, DrainClear);
    var s2 := Apply(s1, DrainClear);
    StepInv(s2, DrainDeliver);
    assert s.delivered + [s.claimed[t]] == s.claimed[..t + 1];
  }

  lemma ScanAlone(s: State, m: nat) returns (steps: seq<Step>, s': State)
    requires Inv(s) && s.consumer.Scan? && s.consumer.head == s.head && StopsAt(s, m)
    ensures Reaches(s, steps, s') && forall i :: 0 <= i < |steps| ==> OwnerStepOnly(steps[i])
    ensures Inv(s') && s'.consumer == Resting && s'.producers == s.producers && s'.claimed == s.claimed
    ensures s'.tail == m && s'.delivered == s.claimed[..m]
    decreases m - s.consumer.tail
  {
    if s.consumer.tail == m {
      steps, s' := StopAlone(s);
    } else {
      var s1 := Apply(s, DrainLoadSlot);
      DrainTurn(s);
      SamePending(s, AfterTurn(s));
      steps, s' := ScanAlone(AfterTurn(s), m);
      var s2 := Apply(s1, DrainClear);
      Prepend(s2, DrainDeliver, steps, s');
      Prepend(s1, DrainClear, [DrainDeliver] + steps, s');
      Prepend(s, DrainLoadSlot, [DrainClear] + ([DrainDeliver] + steps), s');
      steps := [DrainLoadSlot] + ([DrainClear] + ([DrainDeliver] + steps));
    }
  }

  lemma StopAlone(s: State) returns (steps: seq<Step>, s': State)
    requires Inv(s) && s.consumer.Scan? && s.consumer.head == s.head && StopsAt(s, s.consumer.tail)
    ensures Reaches(s, steps, s') && forall i :: 0 <= i < |steps| ==> OwnerStepOnly(steps[i])
    ensures Inv(s') && s' == s.(tail := s.consumer.tail, consumer := Resting)
  {
    if s.consumer.tail < s.head { assert SlotOk(s, s.consumer.tail); }
    var s1 := Apply(s, DrainLoadSlot);
    StepInv(s, DrainLoadSlot);
    StepInv(s1, DrainPublish);
    s' := Apply(s1, DrainPublish);
    assert Reaches(s', [], s');
    Prepend(s1, DrainPublish, [], s');
    Prepend(s, DrainLoadSlot, [DrainPublish] + [], s');
    steps := [DrainLoadSlot] + ([DrainPublish] + []);
  }

  /**
   * A drain that is not interrupted hands over everything up to the first
   * ticket whose producer has not written yet; with no such producer it
   * empties the queue.  An unwritten cell therefore delays delivery only.
   */
  lemma DrainAlone(s: State, m: nat) returns (steps: seq<Step>, s': State)
    requires Inv(s) && s.consumer == Resting && StopsAt(s, m)
    ensures Reaches(s, steps, s') && forall i :: 0 <= i < |steps| ==> OwnerStepOnly(steps[i])
    ensures Inv(s') && s'.consumer == Resting && s'.producers == s.producers
    ensures s'.tail == m && s'.delivered == s.claimed[..m] && s'.claimed == s.claimed
    ensures (forall k :: !Pending(s, k)) ==> m == s.head && s'.delivered == s.claimed
  {
    var s1 := Apply(s, DrainLoadTail);
    StepInv(s, DrainLoadTail);
    var s2 := Apply(s1, DrainLoadHead);
    StepInv(s1, DrainLoadHead);
    SamePending(s, s2);
    steps, s' := ScanAlone(s2, m);
    Prepend(s1, DrainLoadHead, steps, s');
    Prepend(s, DrainLoadTail, [DrainLoadHead] + steps, s');
    steps := [DrainLoadTail] + ([DrainLoadHead] + steps);
  }

  // ---------------------------------------------------------------------
  // The queue in place, used by one thread at a time
  // ---------------------------------------------------------------------

  class PerThreadFreeQueue {
    var head: nat
    var tail: nat
    const slots: array<Ptr>
    ghost var claimed: seq<Ptr>

    /** The machine state with no push and no drain under way. */
    ghost function Snapshot(): State
      reads this, slots
    {
      State(slots.Length, head, tail, slots[..], [], Resting, claimed,
            if tail <= |claimed| then claimed[..tail] else [])
    }

    ghost predicate Valid()
      reads this, slots
    {
      Inv(Snapshot()) && slots.Length < SIZE_MODULUS
    }

    /** The pointers waiting in the queue, oldest first. */
    ghost function Contents(): seq<Ptr>
      requires Valid()
      reads this, slots
    {
      claimed[tail..]
    }

    constructor (cap: nat)
      requires 0 < cap < SIZE_MODULUS
      ensures Valid() && Contents() == [] && slots.Length == cap && head == 0
      ensures fresh(slots)
    {
      head, tail := 0, 0;
      claimed := [];
      slots := new Ptr[cap](_ => NULL);
      new;
      assert Init(Snapshot()) by { assert slots[..] == seq(cap, _ => NULL); }
      InitInv(Snapshot());
    }

    /** weakFailures is how often the weak compare-and-swap fails for no reason. */
    method Push(ptr: Ptr, weakFailures: nat) returns (ok: bool)
      requires Valid() && ptr != NULL
      requires head + 1 + slots.Length <= SIZE_MODULUS
      modifies this, slots
      ensures Valid()
      ensures ok <==> |old(Contents())| < slots.Length
      ensures Contents() == if ok then old(Contents()) + [ptr] else old(Contents())
    {
      var failures := weakFailures;
      var currentHead := head;
      var swapped := false;
      while !swapped
        invariant unchanged(this) || swapped
        invariant !swapped ==> currentHead == head
        invariant swapped ==> currentHead == old(head) < tail + slots.Length
                              && head == old(head) + 1 && tail == old(tail) && claimed == old(claimed)
        invariant slots[..] == old(slots[..])
        decreases failures, !swapped
      {
        if SizeSub(currentHead, tail) >= slots.Length {
          return false;
        }
        if failures > 0 {
          failures := failures - 1;
          currentHead := head;
        } else {
          head := currentHead + 1;
          swapped := true;
        }
      }
      ghost var s := old(Snapshot());
      ghost var s1 := s.(producers := [Cas(ptr, currentHead)]);
      assert Inv(s1) by { InvWithProducer(s, Cas(ptr, currentHead)); }
      ghost var s2 := Apply(s1, PushCas(0, false));
      StepInv(s1, PushCas(0, false));
      StepInv(s2, PushStore(0));
      ghost var s3 := Apply(s2, PushStore(0));
      InvWithoutProducer(s3);
      slots[currentHead % slots.Length] := ptr;
      claimed := claimed + [ptr];
      assert Snapshot() == s3.(producers := []);
      return true;
    }

    /** Returns what the callback was given, in order. */
    method Drain() returns (processed: seq<Ptr>)
      requires Valid()
      modifies this, slots
      ensures Valid() && Contents() == []
      ensures processed == old(Contents())
      ensures head == old(head)
    {
      processed := [];
      var currentTail := tail;
      var currentHead := head;
      ghost var s := Snapshot().(consumer := Scan(tail, head));
      QuietOwnerStep(Snapshot(), s);
      while currentTail < currentHead
        invariant old(tail) <= currentTail <= currentHead == head == old(head)
        invariant tail == old(tail) && claimed == old(claimed)
        invariant s == Snapshot().(consumer := Scan(currentTail, currentHead), delivered := claimed[..currentTail])
        invariant Inv(s)
        invariant processed == claimed[tail..currentTail]
      {
        var slot := currentTail % slots.Length;
        var ptr := slots[slot];
        DrainTurn(s);
        if ptr == NULL {
          break;
        }
        slots[slot] := NULL;
        s := AfterTurn(s);
        processed := processed + [ptr];
        currentTail := currentTail + 1;
      }
      DrainEnd(s);
      tail := currentTail;
      assert Snapshot() == s.(tail := currentTail, consumer := Resting);
    }
  }

  lemma DrainEnd(s: State)
    requires Inv(s) && s.consumer.Scan? && s.consumer.tail == s.consumer.head
    ensures Inv(s.(tail := s.consumer.tail, consumer := Resting))
  {
    StepInv(s, DrainLoadSlot);
    StepInv(Apply(s, DrainLoadSlot), DrainPublish);
  }

  lemma InvWithProducer(s: State, pc: Producer)
    requires Inv(s) && s.producers == [] && !pc.Store?
    requires ProducerOk(s.(producers := [pc]), 0)
    ensures Inv(s.(producers := [pc]))
  {
    var s' := s.(producers := [pc]);
    forall k | Front(s) <= k < Front(s) + s.cap
      ensures SlotOk(s', k)
    {
      assert SlotOk(s, k);
    }
  }

  lemma InvWithoutProducer(s: State)
    requires Inv(s) && s.producers == [Idle]
    ensures Inv(s.(producers := []))
  {
    var s' := s.(producers := []);
    forall k | Front(s) <= k < Front(s) + s.cap
      ensures SlotOk(s', k)
    {
      assert SlotOk(s, k);
    }
  }
}
