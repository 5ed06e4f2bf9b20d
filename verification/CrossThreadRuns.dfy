/**
 * Particular runs of the machine in CrossThread: a free that is dropped, and
 * frees that wait because the owner does not drain a queue that holds few.
 */
module CrossThreadRuns {
  import opened CrossThread
  import Q = FreeQueue
  import opened PowersOfTwo

  /** Some run ends in this state. */
  ghost predicate Reachable(s: Sys) {
    exists run, steps :: IsRun(run, steps) && run[|steps|] == s
  }

  /** Every step from a state in the set leads to one in it, as it does for the reachable states. */
  ghost predicate Closed(r: Sys -> bool) {
    forall s, step {:trigger Apply(s, step)} | Enabled(s, step) && r(s) :: r(Apply(s, step))
  }

  lemma ReachableIsClosed()
    ensures Closed(s => Reachable(s))
  {
    forall s, step | Enabled(s, step) && Reachable(s)
      ensures Reachable(Apply(s, step))
    {
      var run, steps :| IsRun(run, steps) && run[|steps|] == s;
      assert IsRun(run + [Apply(s, step)], steps + [step]);
    }
  }

  // ---------------------------------------------------------------------
  // A free that is dropped
  // ---------------------------------------------------------------------

  /** The addresses 1 to n belong to thread 0. */
  function Home(n: nat): map<Ptr, nat> {
    if n == 0 then map[] else Home(n - 1)[n := 0]
  }

  lemma {:induction false} HomeIs(n: nat)
    ensures forall p: nat :: p in Home(n) <==> 1 <= p <= n
    ensures forall p | p in Home(n) :: Home(n)[p] == 0
  {
    if n > 0 { HomeIs(n - 1); }
  }

  /** Who is known to be registered is. */
  predicate KnownOk(s: Sys) {
    && |s.threads| == |s.registered|
    && forall u | 0 <= u < |s.threads| && s.threads[u].known :: s.registered[u] && u < s.maxId
  }

  /** Thread 0 owns the objects 1 to n and has allocated those up to a; the program has those from f + 1 to h. */
  predicate Objects(s: Sys, n: nat, a: nat, f: nat, h: nat) {
    && (forall p: nat | 1 <= p <= n :: p in s.home && s.home[p] == 0 && (p in s.bits <==> p <= a))
    && (forall p: nat | f < p <= h :: p in s.place && s.place[p] == Held)
  }

  /** The objects 1 to f have been pushed, and none has been delivered. */
  predicate Pushed(q: Q.State, cap: nat, f: nat, threads: nat) {
    && q.cap == cap == |q.slots| && |q.producers| == threads
    && q.tail == 0 && q.head == f == |q.claimed| && q.delivered == [] && q.consumer == Q.Resting
    && forall k | 0 <= k < f && k < cap :: q.slots[k] == q.claimed[k] == k + 1
  }

  /** Threads 0 and 1 are between two calls. */
  predicate Quiet(s: Sys, cap: nat, n: nat, a: nat, f: nat, h: nat) {
    && Shape(s) && KnownOk(s) && |s.threads| >= 2 && f <= h <= a <= n
    && Objects(s, n, a, f, h) && Pushed(s.queues[0], cap, f, |s.threads|)
    && s.threads[0].pc == s.threads[1].pc == Idle && s.queues[0].producers[1] == Q.Idle
    && s.threads[0].allocCount == a % UINT_MODULUS && (a > 0 ==> s.threads[0].known)
  }

  /** The other threads are where they were. */
  predicate Undisturbed(s: Sys, s': Sys) {
    && |s.threads| == |s'.threads| == |s.queues| == |s'.queues| > 0
    && |s.queues[0].producers| == |s'.queues[0].producers| == |s.threads|
    && forall u | 2 <= u < |s.threads| ::
         s'.threads[u] == s.threads[u] && s'.queues[0].producers[u] == s.queues[0].producers[u]
  }

  /** A heap is registered in a few steps when no other thread interferes. */
  lemma Registers(r: Sys -> bool, s: Sys, t: nat, op: Op) returns (s': Sys)
    requires Closed(r) && r(s) && Shape(s) && t < |s.threads| && s.threads[t].pc == RegStore(op)
    ensures r(s')
    ensures s' == s.(registered := s.registered[t := true], maxId := if s.maxId > t then s.maxId else t + 1,
                     threads := s.threads[t := s.threads[t].(pc := Resume(op), known := true)])
  {
    var s1 := Apply(s, Local(t, false));
    var s2 := Apply(s1, Local(t, false));
    if s.maxId <= t {
      s2 := RaisesMaxId(r, s2, t, op);
    }
    s' := Apply(s2, Local(t, false));
  }

  lemma RaisesMaxId(r: Sys -> bool, s: Sys, t: nat, op: Op) returns (s': Sys)
    requires Closed(r) && r(s) && Shape(s) && t < |s.threads| && s.threads[t].pc == RegCas(op, s.maxId) && s.maxId <= t
    ensures r(s') && s' == s.(maxId := t + 1, threads := s.threads[t := s.threads[t].(pc := RegCas(op, t + 1))])
  {
    var s1 := Apply(s, Local(t, false));
    s' := Apply(s1, Local(t, false));
  }

  /** The drain check, when it is due and the queue is empty, leads on to the allocation. */
  lemma Counts(r: Sys -> bool, s: Sys) returns (s': Sys)
    requires Closed(r) && r(s) && Shape(s) && |s.threads| > 0 && s.threads[0].pc == Count
    requires s.queues[0].head == s.queues[0].tail == 0
    ensures r(s')
    ensures s' == s.(threads := s.threads[0 :=
                     s.threads[0].(pc := Alloc, allocCount := (s.threads[0].allocCount + 1) % UINT_MODULUS)])
  {
    s' := Apply(s, Local(0, false));
    if s'.threads[0].pc == CheckHead {
      var s1 := Apply(s', Local(0, false));
      s' := Apply(s1, Local(0, false));
    }
  }

  /** The owner begins a malloc, registering the first time. */
  lemma BeginsMalloc(r: Sys -> bool, s: Sys) returns (s': Sys)
    requires Closed(r) && r(s) && Shape(s) && KnownOk(s) && |s.threads| > 0 && s.threads[0].pc == Idle
    ensures r(s')
    ensures s' == s.(registered := s.registered[0 := true], maxId := if s.maxId > 0 then s.maxId else 1,
                     threads := s.threads[0 := s.threads[0].(pc := Count, known := true)])
  {
    s' := Apply(s, BeginMalloc(0));
    if !s.threads[0].known {
      s' := Registers(r, s', 0, MallocOp);
    }
  }

  /** One more object is allocated. */
  lemma Mallocs(r: Sys -> bool, s: Sys, cap: nat, n: nat, a: nat) returns (s': Sys)
    requires Closed(r) && r(s) && Quiet(s, cap, n, a, 0, a) && a < n
    ensures r(s') && Quiet(s', cap, n, a + 1, 0, a + 1) && Undisturbed(s, s')
  {
    var s1 := BeginsMalloc(r, s);
    var s2 := Counts(r, s1);
    s' := Apply(s2, TakeSlot(0, a + 1));
  }

  lemma {:induction false} MallocsAll(r: Sys -> bool, s: Sys, cap: nat, n: nat, a: nat, last: nat) returns (s': Sys)
    requires Closed(r) && r(s) && Quiet(s, cap, n, a, 0, a) && a <= last <= n
    ensures r(s') && Quiet(s', cap, n, last, 0, last) && Undisturbed(s, s')
    decreases last - a
  {
    s' := s;
    if a < last {
      s' := Mallocs(r, s, cap, n, a);
      s' := MallocsAll(r, s', cap, n, a + 1, last);
    }
  }

  /** A thread is given an object of thread 0 to free. */
  lemma Frees(r: Sys -> bool, s: Sys, u: nat, p: Ptr) returns (s': Sys)
    requires Closed(r) && r(s) && Shape(s) && KnownOk(s) && 0 < u < |s.threads| && s.threads[u].pc == Idle
    requires p in s.place && s.place[p] == Held && p in s.home && s.home[p] == 0
    ensures r(s')
    ensures s' == s.(registered := s.registered[u := true], maxId := if s.maxId > u then s.maxId else u + 1,
                     place := s.place[p := InFlight(u)],
                     threads := s.threads[u := s.threads[u].(pc := FindMax(p), known := true)])
  {
    var s1 := Apply(s, BeginFree(u, p));
    s' := Apply(s1, Local(u, false));
    if !s.threads[u].known {
      s' := Registers(r, s', u, FreeOp(p));
    }
  }

  /** It finds the owner at the first entry. */
  lemma FindsOwner(r: Sys -> bool, s: Sys, u: nat, p: Ptr) returns (s': Sys)
    requires Closed(r) && r(s) && Shape(s) && 0 < u < |s.threads| && s.threads[u].pc == FindMax(p)
    requires s.maxId > 0 && s.registered[0] && p in s.home && s.home[p] == 0
    ensures r(s') && s' == s.(threads := s.threads[u := s.threads[u].(pc := StartPush(p, 0))])
  {
    var s1 := Apply(s, Local(u, false));
    s' := Apply(s1, Local(u, false));
  }

  /** It begins to push and loads the head. */
  lemma LoadsHead(r: Sys -> bool, s: Sys, u: nat, p: Ptr) returns (s': Sys)
    requires Closed(r) && r(s) && Shape(s) && 0 < u < |s.threads| && s.threads[u].pc == StartPush(p, 0) && p != Q.NULL
    requires var q := s.queues[0];
             q.cap > 0 && |q.slots| == q.cap && |q.producers| == |s.threads| && q.producers[u] == Q.Idle
    ensures r(s')
    ensures var q := s.queues[0];
            s' == s.(threads := s.threads[u := s.threads[u].(pc := Pushing(0))],
                     queues := s.queues[0 := q.(producers := q.producers[u := Q.LoadTail(p, q.head)])])
  {
    var s1 := Apply(s, Push(u, Q.StartPush(u, p)));
    s' := Apply(s1, Push(u, Q.PushLoadHead(u)));
    Twice(s.queues[0].producers, u, Q.LoadHead(p), Q.LoadTail(p, s.queues[0].head));
    Twice(s.queues, 0, s1.queues[0], s'.queues[0]);
  }

  lemma Twice<T>(a: seq<T>, i: nat, x: T, y: T)
    requires i < |a|
    ensures a[i := x][i := y] == a[i := y]
  {
  }

  /** Thread u is pushing p onto the queue of thread 0 and has loaded the head; otherwise nothing has changed. */
  predicate Pushes(s: Sys, s': Sys, u: nat, p: Ptr) {
    && u < |s.threads| == |s'.threads| == |s.queues| == |s'.queues| && u < |s.queues[0].producers|
    && s'.home == s.home && s'.bits == s.bits && s'.place == s.place[p := InFlight(u)]
    && s'.threads == s.threads[u := Thread(Pushing(0), true, s.threads[u].allocCount)]
    && var q := s.queues[0]; s'.queues == s.queues[0 := q.(producers := q.producers[u := Q.LoadTail(p, q.head)])]
  }

  lemma BeginsToPush(r: Sys -> bool, s: Sys, cap: nat, n: nat, a: nat, f: nat, h: nat, u: nat, p: Ptr) returns (s': Sys)
    requires Closed(r) && r(s) && Quiet(s, cap, n, a, f, h) && cap > 0 && f < p <= h
    requires 0 < u < |s.threads| && s.threads[u].pc == Idle && s.queues[0].producers[u] == Q.Idle
    ensures r(s') && Shape(s') && KnownOk(s') && Pushes(s, s', u, p)
  {
    var s1 := Frees(r, s, u, p);
    var s2 := FindsOwner(r, s1, u, p);
    s' := LoadsHead(r, s2, u, p);
    Twice(s.threads, u, s1.threads[u], s2.threads[u]);
    Twice(s.threads, u, s2.threads[u], s'.threads[u]);
  }

  /** There is room. */
  lemma Stores(r: Sys -> bool, s: Sys, u: nat, p: Ptr, cap: nat, f: nat) returns (s': Sys)
    requires Closed(r) && r(s) && Shape(s) && 0 < u < |s.threads| && s.threads[u].pc == Pushing(0)
    requires Pushed(s.queues[0], cap, f, |s.threads|) && s.queues[0].producers[u] == Q.LoadTail(p, f)
    requires f < cap <= Q.SIZE_MODULUS / 2
    ensures r(s')
    ensures var q := s.queues[0];
            s' == s.(place := s.place[p := Queued(0, f)], threads := s.threads[u := s.threads[u].(pc := Idle)],
                     queues := s.queues[0 := q.(head := f + 1, claimed := q.claimed + [p],
                                                producers := q.producers[u := Q.Idle], slots := q.slots[f := p])])
  {
    var s1 := Claims(r, s, u, p, cap, f);
    DivModUnique(f, cap, 0, f);
    s' := Apply(s1, Push(u, Q.PushStore(u)));
    Twice(s.queues[0].producers, u, Q.Store(p, f), Q.Idle);
    Twice(s.queues, 0, s1.queues[0], s'.queues[0]);
  }

  lemma Claims(r: Sys -> bool, s: Sys, u: nat, p: Ptr, cap: nat, f: nat) returns (s': Sys)
    requires Closed(r) && r(s) && Shape(s) && 0 < u < |s.threads| && s.threads[u].pc == Pushing(0)
    requires Pushed(s.queues[0], cap, f, |s.threads|) && s.queues[0].producers[u] == Q.LoadTail(p, f)
    requires f < cap <= Q.SIZE_MODULUS / 2
    ensures r(s')
    ensures var q := s.queues[0];
            s' == s.(place := s.place[p := Queued(0, f)],
                     queues := s.queues[0 := q.(head := f + 1, claimed := q.claimed + [p],
                                                producers := q.producers[u := Q.Store(p, f)])])
  {
    var s1 := Apply(s, Push(u, Q.PushLoadTail(u)));
    s' := Apply(s1, Push(u, Q.PushCas(u, false)));
    Twice(s.queues[0].producers, u, Q.Cas(p, f), Q.Store(p, f));
    Twice(s.queues, 0, s1.queues[0], s'.queues[0]);
  }

  /** Thread 1 frees object f + 1, and there is room for it. */
  lemma FreesOne(r: Sys -> bool, s: Sys, cap: nat, n: nat, a: nat, f: nat, h: nat) returns (s': Sys)
    requires Closed(r) && r(s) && Quiet(s, cap, n, a, f, h) && f < h && f < cap <= Q.SIZE_MODULUS / 2
    ensures r(s') && Quiet(s', cap, n, a, f + 1, h) && Undisturbed(s, s')
  {
    var s1 := BeginsToPush(r, s, cap, n, a, f, h, 1, f + 1);
    s' := Stores(r, s1, 1, f + 1, cap, f);
  }

  lemma {:induction false} FreesAll(r: Sys -> bool, s: Sys, cap: nat, n: nat, a: nat, f: nat, h: nat, last: nat)
    returns (s': Sys)
    requires Closed(r) && r(s) && Quiet(s, cap, n, a, f, h) && f <= last <= h && last <= cap <= Q.SIZE_MODULUS / 2
    ensures r(s') && Quiet(s', cap, n, a, last, h) && Undisturbed(s, s')
    decreases last - f
  {
    s' := s;
    if f < last {
      s' := FreesOne(r, s, cap, n, a, f, h);
      s' := FreesAll(r, s', cap, n, a, f + 1, h, last);
    }
  }

  /** The beginning: so many threads, rings of this capacity, and n objects of thread 0. */
  lemma Start(cap: nat, n: nat, threads: nat) returns (s: Sys)
    requires 0 < cap < Q.SIZE_MODULUS && 2 <= threads <= MAX_THREADS
    ensures Reachable(s) && Quiet(s, cap, n, 0, 0, 0) && |s.threads| == threads
    ensures forall u | 0 <= u < threads :: s.threads[u].pc == Idle && s.queues[0].producers[u] == Q.Idle
  {
    var queue := Q.State(cap, 0, 0, seq(cap, _ => Q.NULL), seq(threads, _ => Q.Idle), Q.Resting, [], []);
    var idle := Thread(Idle, false, 0);
    s := Sys(Home(n), {}, seq(threads, _ => false), 0, seq(threads, _ => idle), seq(threads, _ => queue), map[]);
    HomeIs(n);
    assert Init(s);
    assert IsRun([s], []);
  }

  /**
   * Frees are dropped, whatever the capacity: in this reachable state every
   * call has returned, one more object than the queue holds was freed, and its
   * slot is never used again.  If the queue holds less than a batch, those in
   * it wait for ever as well.
   */
  lemma DropHappens(cap: nat) returns (s: Sys)
    requires 0 < cap <= Q.SIZE_MODULUS / 2
    ensures Reachable(s) && |s.threads| == |s.queues| == 2 && s.queues[0].cap == cap == |s.queues[0].claimed|
    ensures IsDropped(s, cap + 1) && cap + 1 in s.bits
    ensures s.threads[0].pc == s.threads[1].pc == Idle
    ensures cap < FREE_BATCH_SIZE ==> Idles(s, 0, []) && FewWait(s, 0, 0)
  {
    ReachableIsClosed();
    var n := cap + 1;
    s := Start(cap, n, 2);
    s := FreesToMany(s => Reachable(s), s, cap, n);
  }

  lemma FreesToMany(r: Sys -> bool, s: Sys, cap: nat, n: nat) returns (s': Sys)
    requires Closed(r) && r(s) && Quiet(s, cap, n, 0, 0, 0) && |s.threads| == 2
    requires 0 < cap <= Q.SIZE_MODULUS / 2 && n == cap + 1
    ensures r(s') && |s'.threads| == |s'.queues| == 2 && Pushed(s'.queues[0], cap, cap, 2)
    ensures s'.threads[0].pc == s'.threads[1].pc == Idle && IsDropped(s', n) && n in s'.bits
  {
    var s1 := MallocsAll(r, s, cap, n, 0, n);
    var s2 := FreesAll(r, s1, cap, n, n, 0, n, cap);
    var s3 := BeginsToPush(r, s2, cap, n, n, cap, n, 1, n);
    s' := Apply(s3, Push(1, Q.PushLoadTail(1)));
  }

  // ---------------------------------------------------------------------
  // When the owner drains
  // ---------------------------------------------------------------------

  /** Between its two loads in shouldDrain the owner holds a head not behind its tail and not ahead of the head. */
  ghost predicate CheckOk(s: Sys, t: nat)
    requires t < |s.threads| == |s.queues|
  {
    var q := s.queues[t];
    s.threads[t].pc.CheckTail? ==> q.tail == |q.delivered| <= s.threads[t].pc.head <= q.head == |q.claimed|
  }

  /** What a resting owner's counters are. */
  lemma RestingCounters(s: Sys, t: nat)
    requires Inv(s) && t < |s.threads| && s.threads[t].pc != Draining
    ensures s.queues[t].consumer == Q.Resting
    ensures s.queues[t].tail == |s.queues[t].delivered| <= |s.queues[t].claimed| == s.queues[t].head
  {
    assert ThreadOk(s, t) && Q.Inv(s.queues[t]);
  }

  /** What a step of another thread leaves of thread t and its queue. */
  ghost predicate OnlyPushed(s: Sys, s': Sys, t: nat) {
    && t < |s.threads| == |s'.threads| == |s.queues| == |s'.queues| && s'.threads[t] == s.threads[t]
    && s'.queues[t].delivered == s.queues[t].delivered && s.queues[t].claimed <= s'.queues[t].claimed
  }

  lemma OtherLocal(s: Sys, u: nat, spurious: bool, t: nat)
    requires Inv(s) && Enabled(s, Local(u, spurious)) && t < |s.threads| && u != t
    ensures OnlyPushed(s, Apply(s, Local(u, spurious)), t)
  {
  }

  lemma OtherDrain(s: Sys, u: nat, qs: Q.Step, t: nat)
    requires Inv(s) && Enabled(s, Drain(u, qs)) && t < |s.threads| && u != t
    ensures OnlyPushed(s, Apply(s, Drain(u, qs)), t)
  {
  }

  lemma OtherPush(s: Sys, u: nat, qs: Q.Step, t: nat)
    requires Inv(s) && Enabled(s, Push(u, qs)) && t < |s.threads| && u != t
    ensures OnlyPushed(s, Apply(s, Push(u, qs)), t)
  {
    PushIsShaped(s, u, qs);
  }

  lemma OthersOnlyPush(s: Sys, step: Step, t: nat)
    requires Inv(s) && Enabled(s, step) && t < |s.threads| && step.t != t
    ensures OnlyPushed(s, Apply(s, step), t)
  {
    match step
    case Local(u, spurious) => OtherLocal(s, u, spurious, t);
    case Drain(u, qs) => OtherDrain(s, u, qs, t);
    case Push(u, qs) => OtherPush(s, u, qs, t);
    case _ =>
  }

  /** While it is not draining the owner leaves its queue alone, and it starts to drain only when its test says so. */
  ghost predicate OwnMove(s: Sys, s': Sys, t: nat) {
    && t < |s.threads| == |s'.threads| == |s.queues| == |s'.queues|
    && s'.queues[t] == s.queues[t]
    && s'.threads[t].pc != Draining
    && (s'.threads[t].pc == StartDrain ==>
          && s.threads[t].pc.CheckTail? && s.threads[t].pc.head < Q.SIZE_MODULUS && s.queues[t].tail < Q.SIZE_MODULUS
          && Q.SizeSub(s.threads[t].pc.head, s.queues[t].tail) >= FREE_BATCH_SIZE)
    && (s'.threads[t].pc.CheckTail? ==>
          s.threads[t].pc == CheckHead && s'.threads[t].pc.head == s.queues[t].head)
  }

  lemma OwnLocal(s: Sys, t: nat, spurious: bool)
    requires Inv(s) && Enabled(s, Local(t, spurious))
    ensures OwnMove(s, Apply(s, Local(t, spurious)), t)
  {
    assert ThreadOk(s, t);
  }

  lemma OwnPush(s: Sys, t: nat, qs: Q.Step)
    requires Inv(s) && Enabled(s, Push(t, qs))
    ensures OwnMove(s, Apply(s, Push(t, qs)), t)
  {
    PushIsShaped(s, t, qs);
  }

  lemma OwnStep(s: Sys, step: Step)
    requires Inv(s) && Enabled(s, step) && s.threads[step.t].pc !in {StartDrain, Draining}
    ensures OwnMove(s, Apply(s, step), step.t)
  {
    match step
    case Local(t, spurious) => OwnLocal(s, t, spurious);
    case Push(t, qs) => OwnPush(s, t, qs);
    case _ =>
  }

  lemma DrainingStep(s: Sys, step: Step)
    requires Inv(s) && Enabled(s, step) && s.threads[step.t].pc in {StartDrain, Draining}
    ensures |Apply(s, step).threads| == |Apply(s, step).queues| == |s.threads|
    ensures !Apply(s, step).threads[step.t].pc.CheckTail?
  {
  }

  lemma CheckKept(s: Sys, step: Step, t: nat)
    requires Inv(s) && Enabled(s, step) && t < |s.threads| && CheckOk(s, t)
    ensures |Apply(s, step).threads| == |Apply(s, step).queues| == |s.threads| && CheckOk(Apply(s, step), t)
  {
    StepInv(s, step);
    var s' := Apply(s, step);
    if step.t != t {
      OthersOnlyPush(s, step, t);
    } else if s.threads[t].pc in {StartDrain, Draining} {
      DrainingStep(s, step);
    } else {
      OwnStep(s, step);
    }
    if s'.threads[t].pc.CheckTail? {
      RestingCounters(s', t);
      RestingCounters(s, t);
    }
  }

  lemma {:induction false} CheckHolds(run: seq<Sys>, steps: seq<Step>, n: nat, t: nat)
    requires IsRun(run, steps) && n < |run| && t < |run[0].threads|
    ensures |run[n].threads| == |run[n].queues| == |run[0].threads| && CheckOk(run[n], t)
  {
    if n > 0 {
      CheckHolds(run, steps, n - 1, t);
      RunInv(run, steps, n - 1);
      CheckKept(run[n - 1], steps[n - 1], t);
    }
  }

  /**
   * The owner decides against draining exactly when fewer than FREE_BATCH_SIZE
   * of the tickets claimed up to its load of the head are undelivered.
   */
  lemma DrainDeclinedIff(run: seq<Sys>, steps: seq<Step>, n: nat)
    requires IsRun(run, steps) && n < |steps| && steps[n].Local?
    requires steps[n].t < |run[n].threads| && run[n].threads[steps[n].t].pc.CheckTail?
    ensures var t := steps[n].t;
            && t < |run[n].queues| && t < |run[n + 1].threads|
            && run[n].threads[t].pc.head <= |run[n].queues[t].claimed|
            && (run[n + 1].threads[t].pc == Alloc <==>
                  run[n].threads[t].pc.head - |run[n].queues[t].delivered| < FREE_BATCH_SIZE)
            && (run[n + 1].threads[t].pc == StartDrain <==>
                  run[n].threads[t].pc.head - |run[n].queues[t].delivered| >= FREE_BATCH_SIZE)
  {
    var t := steps[n].t;
    RunInv(run, steps, n);
    SameThreads(run, steps, n);
    CheckHolds(run, steps, n, t);
  }

  lemma SameCount(s: Sys, step: Step)
    requires Inv(s) && Enabled(s, step)
    ensures |Apply(s, step).threads| == |s.threads| == |Apply(s, step).queues|
  {
    StepInv(s, step);
    if s.threads[step.t].pc in {StartDrain, Draining} { DrainingStep(s, step); } else { OwnStep(s, step); }
  }

  lemma {:induction false} SameThreads(run: seq<Sys>, steps: seq<Step>, n: nat)
    requires IsRun(run, steps) && n < |run|
    ensures |run[n].threads| == |run[0].threads|
  {
    if n > 0 {
      SameThreads(run, steps, n - 1);
      RunInv(run, steps, n - 1);
      SameCount(run[n - 1], steps[n - 1]);
    }
  }

  /** Thread t is not draining and has delivered so many. */
  ghost predicate Idles(s: Sys, t: nat, delivered: seq<Ptr>) {
    t < |s.threads| == |s.queues| && s.threads[t].pc !in {StartDrain, Draining} && s.queues[t].delivered == delivered
  }

  lemma IdlesOn(s: Sys, step: Step, t: nat, delivered: seq<Ptr>)
    requires Inv(s) && Enabled(s, step) && Idles(s, t, delivered) && CheckOk(s, t) && FewWait(s, t, |delivered|)
    ensures Idles(Apply(s, step), t, delivered)
  {
    if step.t == t {
      OwnStep(s, step);
    } else {
      OthersOnlyPush(s, step, t);
    }
  }

  /**
   * As long as fewer than FREE_BATCH_SIZE objects wait in a queue, they wait:
   * however often the owner allocates, it does not deliver one of them.
   */
  lemma FewAreNeverDelivered(run: seq<Sys>, steps: seq<Step>, i: nat, j: nat, t: nat)
    requires IsRun(run, steps) && i <= j < |run| && t < |run[i].queues| && Idles(run[i], t, run[i].queues[t].delivered)
    requires forall n | i <= n <= j :: FewWait(run[n], t, |run[i].queues[t].delivered|)
    ensures Idles(run[j], t, run[i].queues[t].delivered)
  {
    var delivered := run[i].queues[t].delivered;
    forall n: nat | i <= n < j && Idles(run[n], t, delivered)
      ensures Idles(run[n + 1], t, delivered)
    {
      IdlesOneStep(run, steps, n, t, delivered);
    }
    IdlesThrough(run, i, j, t, delivered);
  }

  lemma {:induction false} IdlesThrough(run: seq<Sys>, i: nat, j: nat, t: nat, delivered: seq<Ptr>)
    requires i <= j < |run| && Idles(run[i], t, delivered)
    requires forall n: nat | i <= n < j && Idles(run[n], t, delivered) :: Idles(run[n + 1], t, delivered)
    ensures Idles(run[j], t, delivered)
  {
    if i < j { IdlesThrough(run, i, j - 1, t, delivered); }
  }

  lemma IdlesOneStep(run: seq<Sys>, steps: seq<Step>, n: nat, t: nat, delivered: seq<Ptr>)
    requires IsRun(run, steps) && n < |steps| && Idles(run[n], t, delivered) && FewWait(run[n], t, |delivered|)
    ensures Idles(run[n + 1], t, delivered)
  {
    RunInv(run, steps, n);
    SameThreads(run, steps, n);
    CheckHolds(run, steps, n, t);
    IdlesOn(run[n], steps[n], t, delivered);
  }

  /** Fewer than FREE_BATCH_SIZE tickets after the first so many have been claimed. */
  predicate FewWait(s: Sys, t: nat, delivered: nat) {
    t < |s.queues| && |s.queues[t].claimed| < delivered + FREE_BATCH_SIZE
  }

  // ---------------------------------------------------------------------
  // A free that is dropped although the queue is empty
  // ---------------------------------------------------------------------

  /** Thread 0 is draining: of f objects it has delivered the first j. */
  predicate Drains(s: Sys, cap: nat, j: nat, f: nat) {
    && Shape(s) && |s.threads| > 0 && s.threads[0].pc == Draining && j <= f <= cap
    && var q := s.queues[0];
       && q.cap == cap == |q.slots| && |q.producers| == |s.threads| && q.tail == 0 && q.head == f == |q.claimed|
       && q.consumer == Q.Scan(j, f) && q.delivered == q.claimed[..j]
       && forall k | j <= k < f :: q.slots[k] == q.claimed[k] == k + 1
  }

  /** A malloc of the owner makes the drain check, finds enough, and begins to drain. */
  lemma StartsDrain(r: Sys -> bool, s: Sys, cap: nat, n: nat, a: nat, f: nat, h: nat) returns (s': Sys)
    requires Closed(r) && r(s) && Quiet(s, cap, n, a, f, h) && FREE_BATCH_SIZE <= f <= cap < Q.SIZE_MODULUS
    requires 0 < a && a + 1 < UINT_MODULUS && (a + 1) % DRAIN_CHECK_INTERVAL == 0
    ensures r(s') && Drains(s', cap, 0, f) && Undisturbed(s, s') && s'.home == s.home && s'.bits == s.bits
  {
    var s1 := BeginsMalloc(r, s);
    var s2 := Checks(r, s1, f);
    s' := Looks(r, s2, f);
  }

  /** It loads the counters of the queue. */
  lemma Looks(r: Sys -> bool, s: Sys, f: nat) returns (s': Sys)
    requires Closed(r) && r(s) && Shape(s) && |s.threads| > 0 && s.threads[0].pc == StartDrain
    requires s.queues[0].tail == 0 && s.queues[0].head == f && s.queues[0].consumer == Q.Resting
    requires var q := s.queues[0]; q.cap == |q.slots| > 0 && |q.producers| == |s.threads|
    ensures r(s')
    ensures s' == s.(threads := s.threads[0 := s.threads[0].(pc := Draining)],
                     queues := s.queues[0 := s.queues[0].(consumer := Q.Scan(0, f))])
  {
    var s1 := Apply(s, Drain(0, Q.DrainLoadTail));
    s' := Apply(s1, Drain(0, Q.DrainLoadHead));
    Twice(s.queues, 0, s1.queues[0], s'.queues[0]);
  }

  lemma Checks(r: Sys -> bool, s: Sys, f: nat) returns (s': Sys)
    requires Closed(r) && r(s) && Shape(s) && |s.threads| > 0 && s.threads[0].pc == Count
    requires (s.threads[0].allocCount + 1) % UINT_MODULUS % DRAIN_CHECK_INTERVAL == 0
    requires s.queues[0].head == f >= FREE_BATCH_SIZE && s.queues[0].tail == 0
    ensures r(s')
    ensures s' == s.(threads := s.threads[0 :=
                     s.threads[0].(pc := StartDrain, allocCount := (s.threads[0].allocCount + 1) % UINT_MODULUS)])
  {
    var s1 := Apply(s, Local(0, false));
    var s2 := Apply(s1, Local(0, false));
    s' := Apply(s2, Local(0, false));
  }

  /** It takes the next object out of its cell. */
  lemma TakesOut(r: Sys -> bool, s: Sys, cap: nat, j: nat, f: nat) returns (s': Sys)
    requires Closed(r) && r(s) && Drains(s, cap, j, f) && j < f
    ensures r(s')
    ensures var q := s.queues[0];
            s' == s.(queues := s.queues[0 := q.(slots := q.slots[j := Q.NULL], consumer := Q.Deliver(j, f, j + 1))])
  {
    DivModUnique(j, cap, 0, j);
    var s1 := Apply(s, Drain(0, Q.DrainLoadSlot));
    s' := Apply(s1, Drain(0, Q.DrainClear));
    Twice(s.queues, 0, s1.queues[0], s'.queues[0]);
  }

  /** It delivers one object. */
  lemma DrainsOne(r: Sys -> bool, s: Sys, cap: nat, j: nat, f: nat) returns (s': Sys)
    requires Closed(r) && r(s) && Drains(s, cap, j, f) && j < f
    ensures r(s') && Drains(s', cap, j + 1, f) && Undisturbed(s, s') && s'.home == s.home && s'.bits <= s.bits
  {
    var s1 := TakesOut(r, s, cap, j, f);
    s' := Apply(s1, Drain(0, Q.DrainDeliver));
    assert s.queues[0].claimed[..j] + [j + 1] == s.queues[0].claimed[..j + 1];
  }

  lemma {:induction false} DrainsAll(r: Sys -> bool, s: Sys, cap: nat, j: nat, f: nat) returns (s': Sys)
    requires Closed(r) && r(s) && Drains(s, cap, j, f)
    ensures r(s') && Drains(s', cap, f, f) && Undisturbed(s, s') && s'.home == s.home && s'.bits <= s.bits
    decreases f - j
  {
    s' := s;
    if j < f {
      s' := DrainsOne(r, s, cap, j, f);
      s' := DrainsAll(r, s', cap, j + 1, f);
    }
  }

  /** Everything claimed has been delivered, and its owner is not draining. */
  predicate Empty(q: Q.State) {
    q.head == q.tail && q.delivered == q.claimed && q.consumer == Q.Resting
  }

  /** It publishes the new tail. */
  lemma Publishes(r: Sys -> bool, s: Sys, cap: nat, f: nat) returns (s': Sys)
    requires Closed(r) && r(s) && Drains(s, cap, f, f) && 0 < cap < Q.SIZE_MODULUS
    ensures r(s')
    ensures s' == s.(threads := s.threads[0 := s.threads[0].(pc := Alloc)],
                     queues := s.queues[0 := s.queues[0].(tail := f, consumer := Q.Resting)])
  {
    var s1 := Apply(s, Drain(0, Q.DrainLoadSlot));
    s' := Apply(s1, Drain(0, Q.DrainPublish));
    Twice(s.queues, 0, s1.queues[0], s'.queues[0]);
  }

  /** And then it gets its object. */
  lemma EndsDrain(r: Sys -> bool, s: Sys, cap: nat, f: nat, p: Ptr) returns (s': Sys)
    requires Closed(r) && r(s) && Drains(s, cap, f, f) && p in s.home && s.home[p] == 0 && p !in s.bits
    requires 0 < cap < Q.SIZE_MODULUS
    ensures r(s') && Shape(s') && Undisturbed(s, s') && s'.threads[0].pc == Idle
    ensures var q := s'.queues[0]; q.cap == cap == |q.slots| && q.head == f && Empty(q)
  {
    var s1 := Publishes(r, s, cap, f);
    s' := Apply(s1, TakeSlot(0, p));
  }

  /** The step finds the queue of its object's owner full, although that queue, of this capacity, is empty. */
  predicate FullThoughEmpty(s: Sys, step: Step, p: Ptr, cap: nat) {
    && Enabled(s, step) && FindsFull(s, step, p)
    && var q := s.queues[s.threads[step.t].pc.owner]; q.cap == cap && Empty(q)
  }

  /** Some run drops an object while the queue it should go to, of this capacity, is empty. */
  ghost predicate DropsOnEmpty(cap: nat) {
    exists s, step, p :: Reachable(s) && FullThoughEmpty(s, step, p, cap)
  }

  /**
   * An object is dropped on an empty queue in some run exactly when the queue
   * can hold a batch: below that the owner never drains it, and so no head that
   * a push has loaded is ever outrun.
   */
  lemma DropsOnEmptyIff(cap: nat)
    requires 0 < cap <= Q.SIZE_MODULUS / 2
    ensures DropsOnEmpty(cap) <==> cap >= FREE_BATCH_SIZE
  {
    if cap >= FREE_BATCH_SIZE {
      var s := OutrunRun(cap);
      assert FullThoughEmpty(s, Push(2, Q.PushLoadTail(2)), 47, cap);
    } else {
      forall s, step, p | Reachable(s) && FullThoughEmpty(s, step, p, cap)
        ensures false
      {
        NeverOutrun(s, step, p, cap);
      }
    }
  }

  /** Thread 2 loads the head of the empty queue; thread 1 then fills a batch, and the owner drains it. */
  lemma OutrunRun(cap: nat) returns (s: Sys)
    requires FREE_BATCH_SIZE <= cap <= Q.SIZE_MODULUS / 2
    ensures Reachable(s) && Shape(s) && |s.threads| == 3 && s.threads[2].pc == Pushing(0)
    ensures var q := s.queues[0];
            && q.cap == cap == |q.slots| && |q.producers| == 3 && q.producers[2] == Q.LoadTail(47, 0)
            && q.head == FREE_BATCH_SIZE && Empty(q)
  {
    ReachableIsClosed();
    s := Start(cap, 48, 3);
    s := Outruns(s => Reachable(s), s, cap);
  }

  lemma Outruns(r: Sys -> bool, s: Sys, cap: nat) returns (s': Sys)
    requires Closed(r) && r(s) && Quiet(s, cap, 48, 0, 0, 0) && |s.threads| == 3
    requires s.threads[2].pc == Idle && s.queues[0].producers[2] == Q.Idle
    requires FREE_BATCH_SIZE <= cap <= Q.SIZE_MODULUS / 2
    ensures r(s') && Shape(s') && |s'.threads| == 3 && s'.threads[2].pc == Pushing(0)
    ensures var q := s'.queues[0];
            && q.cap == cap == |q.slots| && |q.producers| == 3 && q.producers[2] == Q.LoadTail(47, 0)
            && q.head == FREE_BATCH_SIZE && Empty(q)
  {
    var s1 := MallocsAll(r, s, cap, 48, 0, 47);
    var s2 := BeginsToPush(r, s1, cap, 48, 47, 0, 47, 2, 47);
    s' := FillsAndDrains(r, s2, cap);
  }

  lemma FillsAndDrains(r: Sys -> bool, s: Sys, cap: nat) returns (s': Sys)
    requires Closed(r) && r(s) && Quiet(s, cap, 48, 47, 0, 46)
    requires FREE_BATCH_SIZE <= cap <= Q.SIZE_MODULUS / 2
    ensures r(s') && Shape(s') && Undisturbed(s, s')
    ensures var q := s'.queues[0]; q.cap == cap == |q.slots| && q.head == FREE_BATCH_SIZE && Empty(q)
  {
    var s1 := FreesAll(r, s, cap, 48, 47, 0, 46, FREE_BATCH_SIZE);
    var s2 := StartsDrain(r, s1, cap, 48, 47, FREE_BATCH_SIZE, 46);
    var s3 := DrainsAll(r, s2, cap, 0, FREE_BATCH_SIZE);
    s' := EndsDrain(r, s3, cap, FREE_BATCH_SIZE, 48);
  }

  // ---------------------------------------------------------------------
  // Small queues are never drained
  // ---------------------------------------------------------------------

  lemma CapsStay(s: Sys, step: Step, t: nat)
    requires Inv(s) && Enabled(s, step) && t < |s.queues|
    ensures t < |Apply(s, step).queues| && Apply(s, step).queues[t].cap == s.queues[t].cap
  {
    SameCount(s, step);
  }

  lemma SmallFewWait(s: Sys, t: nat)
    requires Inv(s) && t < |s.queues| && s.queues[t].cap < FREE_BATCH_SIZE && Idles(s, t, [])
    ensures FewWait(s, t, 0)
  {
    RestingCounters(s, t);
    assert Q.Inv(s.queues[t]);
  }

  lemma {:induction false} SmallIsNeverDrained(run: seq<Sys>, steps: seq<Step>, n: nat, t: nat)
    requires IsRun(run, steps) && n < |run| && t < |run[0].queues| && run[0].queues[t].cap < FREE_BATCH_SIZE
    ensures Idles(run[n], t, []) && run[n].queues[t].cap == run[0].queues[t].cap
  {
    if n > 0 {
      SmallIsNeverDrained(run, steps, n - 1, t);
      SmallStep(run, steps, n - 1, t);
    }
  }

  lemma SmallStep(run: seq<Sys>, steps: seq<Step>, n: nat, t: nat)
    requires IsRun(run, steps) && n < |steps| && Idles(run[n], t, []) && run[n].queues[t].cap < FREE_BATCH_SIZE
    ensures Idles(run[n + 1], t, []) && run[n + 1].queues[t].cap == run[n].queues[t].cap
  {
    RunInv(run, steps, n);
    SmallFewWait(run[n], t);
    IdlesOneStep(run, steps, n, t, []);
    CapsStay(run[n], steps[n], t);
  }

  lemma {:induction false} CapsStayInRun(run: seq<Sys>, steps: seq<Step>, n: nat, t: nat)
    requires IsRun(run, steps) && n < |run| && t < |run[0].queues|
    ensures t < |run[n].queues| == |run[0].queues| && run[n].queues[t].cap == run[0].queues[t].cap
  {
    if n > 0 {
      CapsStayInRun(run, steps, n - 1, t);
      RunInv(run, steps, n - 1);
      SameCount(run[n - 1], steps[n - 1]);
      CapsStay(run[n - 1], steps[n - 1], t);
    }
  }

  lemma NeverOutrun(s: Sys, step: Step, p: Ptr, cap: nat)
    requires Reachable(s) && cap < FREE_BATCH_SIZE
    ensures !FullThoughEmpty(s, step, p, cap)
  {
    var run, steps :| IsRun(run, steps) && run[|steps|] == s;
    if FullThoughEmpty(s, step, p, cap) {
      var o := s.threads[step.t].pc.owner;
      RunInv(run, steps, |steps|);
      SameThreads(run, steps, |steps|);
      CapsStayInRun(run, steps, |steps|, o);
      SmallIsNeverDrained(run, steps, |steps|, o);
      RestingCounters(s, o);
    }
  }
}
