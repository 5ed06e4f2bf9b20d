/**
 * The lock-free bitmap (src/include/util/atomicbitmap.h).  Every atomic load
 * and every compare-and-swap of a word is one step, and any number of threads
 * run at once.  Each call is shown to take effect at one instant between its
 * start and its return, as if the sequential bitmap had been called there.
 */
module AtomicBitMaps {
  import opened BitMaps

  datatype Op = TryToSet | Reset | IsSet

  /** Where a thread is inside a call; value is the local variable oldvalue. */
  datatype Pc =
    | Idle
    | Called(op: Op, index: nat)
    | Loaded(op: Op, index: nat, value: Word)
    | Swapping(op: Op, index: nat, value: Word)
    | Returning(op: Op, index: nat, result: bool)

  /** Effect marks the instant at which a call acts; it is not visible to the program. */
  datatype Event =
    | Invoke(thread: nat, op: Op, index: nat)
    | Effect(thread: nat, op: Op, index: nat, result: bool)
    | Respond(thread: nat, op: Op, index: nat, result: bool)

  datatype State = State(words: seq<Word>, pcs: seq<Pc>, history: seq<Event>)

  datatype Step =
    | Call(thread: nat, op: Op, index: nat)
    | Load(thread: nat)
    | Test(thread: nat)
    | CasSucceeds(thread: nat)
    | CasFails(thread: nat)
    | Return(thread: nat)

  // ---------------------------------------------------------------------
  // The code
  // ---------------------------------------------------------------------

  function BitOf(index: nat): Word {
    Mask(Position(index))
  }

  /** The call returns without writing when it sees this word. */
  predicate Decided(op: Op, index: nat, value: Word) {
    match op
    case TryToSet => And(value, BitOf(index)) != ZERO
    case Reset => value == And(value, Not(BitOf(index)))
    case IsSet => true
  }

  function Outcome(op: Op, index: nat, value: Word): bool {
    op == IsSet && And(value, BitOf(index)) != ZERO
  }

  function NewValue(op: Op, index: nat, value: Word): Word {
    if op == TryToSet then Or(value, BitOf(index)) else And(value, Not(BitOf(index)))
  }

  predicate Busy(s: State, t: nat) {
    t < |s.pcs| && !s.pcs[t].Idle? && !s.pcs[t].Returning? && s.pcs[t].index < |s.words| * WORDBITS
  }

  /** compare_exchange_weak may fail even when the word is the expected one. */
  predicate Enabled(s: State, step: Step) {
    var t := step.thread;
    t < |s.pcs| &&
    match step
    case Call(_, _, index) => s.pcs[t].Idle? && index < |s.words| * WORDBITS
    case Load(_) => s.pcs[t].Called? && Busy(s, t)
    case Test(_) => s.pcs[t].Loaded?
    case CasSucceeds(_) => s.pcs[t].Swapping? && Busy(s, t) && s.words[Item(s.pcs[t].index)] == s.pcs[t].value
    case CasFails(_) => s.pcs[t].Swapping? && Busy(s, t)
    case Return(_) => s.pcs[t].Returning?
  }

  function Goto(s: State, t: nat, pc: Pc, events: seq<Event>): State
    requires t < |s.pcs|
  {
    s.(pcs := s.pcs[t := pc], history := s.history + events)
  }

  /** The word is read; a call that this word decides acts now. */
  function Observe(s: State, t: nat): State
    requires Busy(s, t)
  {
    var pc := s.pcs[t];
    var value := s.words[Item(pc.index)];
    Goto(s, t, Loaded(pc.op, pc.index, value),
         if Decided(pc.op, pc.index, value)
         then [Effect(t, pc.op, pc.index, Outcome(pc.op, pc.index, value))] else [])
  }

  function Apply(s: State, step: Step): State
    requires Enabled(s, step)
  {
    var t := step.thread;
    var pc := s.pcs[t];
    match step
    case Call(_, op, index) => Goto(s, t, Called(op, index), [Invoke(t, op, index)])
    case Load(_) => Observe(s, t)
    case Test(_) =>
      Goto(s, t, if Decided(pc.op, pc.index, pc.value)
                 then Returning(pc.op, pc.index, Outcome(pc.op, pc.index, pc.value))
                 else Swapping(pc.op, pc.index, pc.value), [])
    case CasSucceeds(_) =>
      var s' := s.(words := s.words[Item(pc.index) := NewValue(pc.op, pc.index, pc.value)]);
      Goto(s', t, Returning(pc.op, pc.index, true), [Effect(t, pc.op, pc.index, true)])
    case CasFails(_) => Observe(s, t)
    case Return(_) => Goto(s, t, Idle, [Respond(t, pc.op, pc.index, pc.result)])
  }

  predicate Init(s: State) {
    && (forall i :: 0 <= i < |s.words| ==> s.words[i] == ZERO)
    && (forall t :: 0 <= t < |s.pcs| ==> s.pcs[t] == Idle)
    && s.history == []
  }

  predicate IsRun(run: seq<State>, steps: seq<Step>) {
    && |run| == |steps| + 1 && Init(run[0])
    && forall i :: 0 <= i < |steps| ==> Enabled(run[i], steps[i]) && run[i + 1] == Apply(run[i], steps[i])
  }

  // ---------------------------------------------------------------------
  // The sequential bitmap, and what a history says about it
  // ---------------------------------------------------------------------

  /** What the sequential bitmap answers when its contents are c. */
  ghost predicate Answer(c: set<nat>, op: Op, index: nat) {
    if op == TryToSet then index !in c else index in c
  }

  ghost function Contents(c: set<nat>, op: Op, index: nat): set<nat> {
    match op
    case TryToSet => c + {index}
    case Reset => c - {index}
    case IsSet => c
  }

  /** The bitmap after the effects of a history, one after the other. */
  ghost function Replay(h: seq<Event>): set<nat> {
    if h == [] then {}
    else
      var c, e := Replay(h[..|h| - 1]), h[|h| - 1];
      if e.Effect? then Contents(c, e.op, e.index) else c
  }

  /** Every effect has the result the sequential bitmap gives at that point. */
  ghost predicate Legal(h: seq<Event>) {
    h == [] ||
    var before, e := h[..|h| - 1], h[|h| - 1];
    Legal(before) && (e.Effect? ==> e.result == Answer(Replay(before), e.op, e.index))
  }

  datatype Status = Quiet | Pending(op: Op, index: nat) | Settled(op: Op, index: nat, result: bool) | Broken

  /** Invoke, effect, respond, in this order and about the same call; anything else is Broken. */
  function Advance(s: Status, e: Event): Status {
    match e
    case Invoke(_, op, index) => if s == Quiet then Pending(op, index) else Broken
    case Effect(_, op, index, result) => if s == Pending(op, index) then Settled(op, index, result) else Broken
    case Respond(_, op, index, result) => if s == Settled(op, index, result) then Quiet else Broken
  }

  function StatusOf(h: seq<Event>, t: nat): Status {
    if h == [] then Quiet
    else
      var s, e := StatusOf(h[..|h| - 1], t), h[|h| - 1];
      if e.thread == t then Advance(s, e) else s
  }

  lemma Extend(h: seq<Event>, e: Event, t: nat)
    ensures StatusOf(h + [e], t) == if e.thread == t then Advance(StatusOf(h, t), e) else StatusOf(h, t)
    ensures Replay(h + [e]) == if e.Effect? then Contents(Replay(h), e.op, e.index) else Replay(h)
    ensures Legal(h + [e]) <==> Legal(h) && (e.Effect? ==> e.result == Answer(Replay(h), e.op, e.index))
  {
    assert (h + [e])[..|h|] == h;
  }

  // ---------------------------------------------------------------------
  // Linearizability
  // ---------------------------------------------------------------------

  function PcStatus(pc: Pc): Status {
    match pc
    case Idle => Quiet
    case Called(op, index) => Pending(op, index)
    case Loaded(op, index, v) =>
      if Decided(op, index, v) then Settled(op, index, Outcome(op, index, v)) else Pending(op, index)
    case Swapping(op, index, _) => Pending(op, index)
    case Returning(op, index, result) => Settled(op, index, result)
  }

  ghost predicate PcOk(s: State, t: nat)
    requires t < |s.pcs|
  {
    var pc := s.pcs[t];
    && (!pc.Idle? ==> pc.index < |s.words| * WORDBITS)
    && (pc.Swapping? ==> !Decided(pc.op, pc.index, pc.value))
    && StatusOf(s.history, t) == PcStatus(pc)
  }

  ghost predicate Inv(s: State) {
    && Legal(s.history)
    && Indices(s.words) == Replay(s.history)
    && forall t :: 0 <= t < |s.pcs| ==> PcOk(s, t)
  }

  /** The word decides the call exactly as the sequential bitmap would. */
  lemma WordIsBit(words: seq<Word>, op: Op, index: nat)
    requires index < |words| * WORDBITS
    ensures var v := words[Item(index)];
            && (Decided(op, index, v) ==>
                  Outcome(op, index, v) == Answer(Indices(words), op, index)
                  && Contents(Indices(words), op, index) == Indices(words))
            && (!Decided(op, index, v) ==>
                  Answer(Indices(words), op, index)
                  && Indices(words[Item(index) := NewValue(op, index, v)]) == Contents(Indices(words), op, index))
  {
    var v, pos := words[Item(index)], Position(index);
    MaskSelects(v, pos);
    MaskWrites(v, pos);
    IndicesAfterWrite(words, index);
    assert index in Indices(words) <==> v[pos];
  }

  lemma GotoKeeps(s: State, t: nat, pc: Pc, events: seq<Event>)
    requires Inv(s) && t < |s.pcs| && (pc.Idle? || pc.index < |s.words| * WORDBITS)
    requires |events| <= 1 && forall e | e in events :: e.thread == t && !e.Effect?
    requires pc.Swapping? ==> !Decided(pc.op, pc.index, pc.value)
    requires PcStatus(pc) == if events == [] then PcStatus(s.pcs[t]) else Advance(PcStatus(s.pcs[t]), events[0])
    ensures Inv(Goto(s, t, pc, events))
  {
    var s' := Goto(s, t, pc, events);
    assert events == [] ==> s'.history == s.history;
    if events != [] { Extend(s.history, events[0], t); assert events == [events[0]]; }
    forall u | 0 <= u < |s'.pcs|
      ensures PcOk(s', u)
    {
      assert PcOk(s, u) && PcOk(s, t);
      if events != [] { Extend(s.history, events[0], u); }
    }
  }

  lemma EffectKeeps(s: State, t: nat, words: seq<Word>, pc: Pc, e: Event)
    requires Inv(s) && t < |s.pcs| && |words| == |s.words|
    requires e.Effect? && e.thread == t && PcStatus(s.pcs[t]) == Pending(e.op, e.index)
    requires !pc.Idle? && !pc.Swapping? && pc.index < |words| * WORDBITS
    requires PcStatus(pc) == Settled(e.op, e.index, e.result)
    requires e.result == Answer(Indices(s.words), e.op, e.index)
    requires Indices(words) == Contents(Indices(s.words), e.op, e.index)
    ensures Inv(Goto(s.(words := words), t, pc, [e]))
  {
    var s' := Goto(s.(words := words), t, pc, [e]);
    Extend(s.history, e, t);
    forall u | 0 <= u < |s'.pcs|
      ensures PcOk(s', u)
    {
      assert PcOk(s, u) && PcOk(s, t);
      Extend(s.history, e, u);
    }
  }

  lemma ObserveKeeps(s: State, t: nat)
    requires Inv(s) && Busy(s, t) && (s.pcs[t].Called? || s.pcs[t].Swapping?)
    ensures Inv(Observe(s, t))
  {
    assert PcOk(s, t);
    var pc := s.pcs[t];
    var value := s.words[Item(pc.index)];
    WordIsBit(s.words, pc.op, pc.index);
    if Decided(pc.op, pc.index, value) {
      EffectKeeps(s, t, s.words, Loaded(pc.op, pc.index, value),
                  Effect(t, pc.op, pc.index, Outcome(pc.op, pc.index, value)));
    } else {
      GotoKeeps(s, t, Loaded(pc.op, pc.index, value), []);
    }
  }

  lemma StepKeeps(s: State, step: Step)
    requires Inv(s) && Enabled(s, step)
    ensures Inv(Apply(s, step))
  {
    var t := step.thread;
    var pc := s.pcs[t];
    assert PcOk(s, t);
    match step
    case Call(_, op, index) => GotoKeeps(s, t, Called(op, index), [Invoke(t, op, index)]);
    case Load(_) => ObserveKeeps(s, t);
    case Test(_) =>
      GotoKeeps(s, t, if Decided(pc.op, pc.index, pc.value)
                      then Returning(pc.op, pc.index, Outcome(pc.op, pc.index, pc.value))
                      else Swapping(pc.op, pc.index, pc.value), []);
    case CasSucceeds(_) =>
      WordIsBit(s.words, pc.op, pc.index);
      EffectKeeps(s, t, s.words[Item(pc.index) := NewValue(pc.op, pc.index, pc.value)],
                  Returning(pc.op, pc.index, true), Effect(t, pc.op, pc.index, true));
    case CasFails(_) => ObserveKeeps(s, t);
    case Return(_) => GotoKeeps(s, t, Idle, [Respond(t, pc.op, pc.index, pc.result)]);
  }

  lemma {:induction false} RunKeeps(run: seq<State>, steps: seq<Step>, n: nat)
    requires IsRun(run, steps) && n < |run|
    ensures Inv(run[n])
  {
    if n > 0 {
      RunKeeps(run, steps, n - 1);
      StepKeeps(run[n - 1], steps[n - 1]);
    } else {
      var s := run[0];
      forall i: nat | i < |s.words| * WORDBITS
        ensures !s.words[Item(i)][Position(i)]
      {
        ItemPosition(i, i);
      }
      assert Indices(s.words) == {};
    }
  }

  /**
   * Every run is linearizable: no thread's events break the order invoke,
   * effect, respond with one and the same result; the effects, taken in order,
   * are a run of the sequential bitmap; and the words hold its contents.
   */
  lemma Linearizable(run: seq<State>, steps: seq<Step>, n: nat)
    requires IsRun(run, steps) && n < |run|
    ensures Legal(run[n].history)
    ensures Indices(run[n].words) == Replay(run[n].history)
    ensures forall t :: 0 <= t < |run[n].pcs| ==> StatusOf(run[n].history, t) == PcStatus(run[n].pcs[t]) != Broken
  {
    RunKeeps(run, steps, n);
    forall t | 0 <= t < |run[n].pcs|
      ensures StatusOf(run[n].history, t) == PcStatus(run[n].pcs[t])
    {
      assert PcOk(run[n], t);
    }
  }

  // ---------------------------------------------------------------------
  // Races on one index
  // ---------------------------------------------------------------------

  predicate Success(e: Event, op: Op) {
    e.Effect? && e.op == op && e.result
  }

  /** The operations that succeeded on an index, in order. */
  function Successes(h: seq<Event>, index: nat): seq<Op> {
    if h == [] then []
    else
      var before, e := Successes(h[..|h| - 1], index), h[|h| - 1];
      if (Success(e, TryToSet) || Success(e, Reset)) && e.index == index then before + [e.op] else before
  }

  function Count(h: seq<Event>, op: Op): nat {
    if h == [] then 0
    else Count(h[..|h| - 1], op) + if Success(h[|h| - 1], op) then 1 else 0
  }

  lemma {:induction false} LegalAlternates(h: seq<Event>, index: nat)
    requires Legal(h)
    ensures index in Replay(h) <==> |Successes(h, index)| % 2 == 1
    ensures forall k :: 0 <= k < |Successes(h, index)| ==>
              Successes(h, index)[k] == if k % 2 == 0 then TryToSet else Reset
  {
    if h != [] {
      LegalAlternates(h[..|h| - 1], index);
    }
  }

  lemma {:induction false} LegalBalances(h: seq<Event>)
    requires Legal(h)
    ensures |Replay(h)| == Count(h, TryToSet) - Count(h, Reset)
  {
    if h != [] {
      LegalBalances(h[..|h| - 1]);
    }
  }

  /** However the threads race, the successes on an index are set, reset, set, reset and so on. */
  lemma SuccessesAlternate(run: seq<State>, steps: seq<Step>, n: nat, index: nat)
    requires IsRun(run, steps) && n < |run|
    ensures index in Indices(run[n].words) <==> |Successes(run[n].history, index)| % 2 == 1
    ensures forall k :: 0 <= k < |Successes(run[n].history, index)| ==>
              Successes(run[n].history, index)[k] == if k % 2 == 0 then TryToSet else Reset
  {
    Linearizable(run, steps, n);
    LegalAlternates(run[n].history, index);
  }

  /** The number of set bits is the number of successful sets less the number of successful resets. */
  lemma SetBitsBalance(run: seq<State>, steps: seq<Step>, n: nat)
    requires IsRun(run, steps) && n < |run|
    ensures |Indices(run[n].words)| == Count(run[n].history, TryToSet) - Count(run[n].history, Reset)
  {
    Linearizable(run, steps, n);
    LegalBalances(run[n].history);
  }

  // ---------------------------------------------------------------------
  // A call that is left alone
  // ---------------------------------------------------------------------

  /** A step of thread t's own call, where a compare-and-swap fails only if the word has changed. */
  predicate Own(s: State, t: nat, step: Step) {
    && step.thread == t && !step.Call? && Enabled(s, step)
    && (step.CasFails? ==> s.words[Item(s.pcs[t].index)] != s.pcs[t].value)
  }

  /** Thread t has just returned from this call. */
  predicate Returned(s: State, t: nat, op: Op, index: nat) {
    && t < |s.pcs| && s.pcs[t] == Idle && s.history != []
    && var e := s.history[|s.history| - 1];
       e.Respond? && e.thread == t && e.op == op && e.index == index
  }

  /** Whatever steps of its own call thread t takes, it returns after at most n of them. */
  ghost predicate Ends(s: State, t: nat, op: Op, index: nat, n: nat)
    decreases n
  {
    Returned(s, t, op, index)
    || (n > 0
        && (exists step :: Own(s, t, step))
        && forall step | Own(s, t, step) :: Ends(Apply(s, step), t, op, index, n - 1))
  }

  /** At most how many steps of its own a call still needs. */
  function ToReturn(s: State, t: nat): nat
    requires t < |s.pcs|
  {
    match s.pcs[t]
    case Idle => 0
    case Called(_, _) => 4
    case Loaded(op, index, v) =>
      if Decided(op, index, v) then 2
      else if index < |s.words| * WORDBITS && s.words[Item(index)] == v then 3 else 5
    case Swapping(op, index, v) => if index < |s.words| * WORDBITS && s.words[Item(index)] == v then 2 else 4
    case Returning(_, _, _) => 1
  }

  function NextStep(s: State, t: nat): Step
    requires t < |s.pcs| && !s.pcs[t].Idle? && s.pcs[t].index < |s.words| * WORDBITS
  {
    match s.pcs[t]
    case Idle => Load(t)
    case Called(_, _) => Load(t)
    case Loaded(_, _, _) => Test(t)
    case Swapping(_, index, v) => if s.words[Item(index)] == v then CasSucceeds(t) else CasFails(t)
    case Returning(_, _, _) => Return(t)
  }

  lemma {:induction false} CallEndsFrom(s: State, t: nat, op: Op, index: nat, n: nat)
    requires Inv(s) && t < |s.pcs| && !s.pcs[t].Idle? && s.pcs[t].op == op && s.pcs[t].index == index
    requires n >= ToReturn(s, t)
    ensures Ends(s, t, op, index, n)
    decreases n
  {
    assert PcOk(s, t);
    var step := NextStep(s, t);
    var s' := Apply(s, step);
    assert Own(s, t, step) && forall other | Own(s, t, other) :: other == step;
    StepKeeps(s, step);
    if s.pcs[t].Returning? {
      assert Returned(s', t, op, index);
    } else {
      assert PcOk(s', t);
      CallEndsFrom(s', t, op, index, n - 1);
    }
    assert forall other | Own(s, t, other) :: Ends(Apply(s, other), t, op, index, n - 1);
  }

  /**
   * In every reachable state a call in progress that is left alone returns
   * after at most five steps: its compare-and-swap fails at most once.
   */
  lemma CallEnds(run: seq<State>, steps: seq<Step>, n: nat, t: nat)
    requires IsRun(run, steps) && n < |run| && t < |run[n].pcs| && !run[n].pcs[t].Idle?
    ensures Ends(run[n], t, run[n].pcs[t].op, run[n].pcs[t].index, 5)
  {
    RunKeeps(run, steps, n);
    CallEndsFrom(run[n], t, run[n].pcs[t].op, run[n].pcs[t].index, 5);
  }
}
