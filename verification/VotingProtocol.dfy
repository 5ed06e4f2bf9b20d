/**
 * The readers and the voter as a state machine.  Every byte a reader stores,
 * every byte sent through a pipe and every signal taken out of one is a step;
 * the vote itself is one step, since all readers are then waiting.
 */
module VotingProtocol {
  import opened Voting

  // ---------------------------------------------------------------------
  // The code
  // ---------------------------------------------------------------------

  /**
   * block counts the blocks a reader has begun to fill before the present
   * one; count is the number of bytes of the present one (buffCount).
   */
  datatype Pc =
    | Reading(block: nat, count: nat)
    | Waiting(block: nat)
    | Padding(block: nat, count: nat)
    | Finished(block: nat)

  /** full and cont are the bytes in the two pipes of this reader; dead is the voter's deadFd. */
  datatype Replica = Replica(pc: Pc, buffer: seq<Byte>, full: nat, cont: nat, dead: bool)

  datatype VoterPc = Collecting | Sending(next: nat) | Exited

  /** votes counts the votes held so far. */
  datatype State = State(replicas: seq<Replica>, voter: VoterPc, arrivals: nat, printed: seq<Byte>, votes: nat)

  /** junk is what the random number generator leaves in the buffer that was printed. */
  datatype Step =
    | ReadChar(replica: nat)
    | Resume(replica: nat)
    | ReadEof(replica: nat)
    | Pad(replica: nat)
    | FinalSignal(replica: nat)
    | TakeSignal(replica: nat, junk: seq<Byte>)
    | TakeEof(replica: nat)
    | Send(replica: nat)

  type Streams = seq<seq<Byte>>

  /** How many bytes of its input a reader has consumed and stored. */
  function Position(pc: Pc): nat {
    match pc
    case Reading(b, n) => b * BUFFER_LENGTH + n
    case Waiting(b) => (b + 1) * BUFFER_LENGTH
    case Padding(b, n) => b * BUFFER_LENGTH + n
    case Finished(b) => (b + 1) * BUFFER_LENGTH
  }

  predicate Enabled(streams: Streams, s: State, step: Step)
    requires |s.replicas| == |streams|
  {
    step.replica < |s.replicas| &&
    var r := s.replicas[step.replica];
    var stream := streams[step.replica];
    |r.buffer| == BUFFER_LENGTH &&
    match step
    case ReadChar(_) => r.pc.Reading? && Position(r.pc) < |stream|
    case Resume(_) => r.pc.Waiting? && r.cont > 0 && Position(r.pc) < |stream|
    case ReadEof(_) => r.pc.Reading? && Position(r.pc) >= |stream|
    case Pad(_) => r.pc.Padding? && r.pc.count < BUFFER_LENGTH
    case FinalSignal(_) => r.pc.Padding? && r.pc.count >= BUFFER_LENGTH
    case TakeSignal(_, junk) => s.voter.Collecting? && !r.dead && r.full > 0 && |junk| == BUFFER_LENGTH
    case TakeEof(_) => s.voter.Collecting? && !r.dead && r.full == 0 && r.pc.Finished?
    case Send(i) => s.voter == Sending(i)
  }

  /** One step of a reader. */
  function Move(stream: seq<Byte>, r: Replica, step: Step): Replica
    requires |r.buffer| == BUFFER_LENGTH
    requires match step
             case ReadChar(_) => r.pc.Reading? && Position(r.pc) < |stream|
             case Resume(_) => r.pc.Waiting? && r.cont > 0 && Position(r.pc) < |stream|
             case ReadEof(_) => r.pc.Reading?
             case Pad(_) => r.pc.Padding? && r.pc.count < BUFFER_LENGTH
             case FinalSignal(_) => r.pc.Padding?
             case _ => false
  {
    match step
    case ReadChar(_) =>
      if r.pc.count >= BUFFER_LENGTH then r.(pc := Waiting(r.pc.block), full := r.full + 1)
      else r.(pc := Reading(r.pc.block, r.pc.count + 1), buffer := r.buffer[r.pc.count := stream[Position(r.pc)]])
    case Resume(_) =>
      r.(pc := Reading(r.pc.block + 1, 1), cont := r.cont - 1, buffer := r.buffer[0 := stream[Position(r.pc)]])
    case ReadEof(_) => r.(pc := Padding(r.pc.block, r.pc.count))
    case Pad(_) => r.(pc := Padding(r.pc.block, r.pc.count + 1), buffer := r.buffer[r.pc.count := NUL])
    case FinalSignal(_) => r.(pc := Finished(r.pc.block), full := r.full + 1)
  }

  function Fingerprints(reps: seq<Replica>): seq<int> {
    seq(|reps|, i requires 0 <= i < |reps| => Fingerprint(reps[i].buffer))
  }

  /** handleInput once every replica has arrived. */
  function Vote(s: State, junk: seq<Byte>): State
    requires |s.replicas| > 0
  {
    var prints := Fingerprints(s.replicas);
    var w := Winner(prints);
    if Freq(prints, prints[w]) < 2 then s.(voter := Exited, arrivals := 0)
    else Voted(s, w, junk)
  }

  /** Reader w won: its buffer is printed and then overwritten. */
  function Voted(s: State, w: nat, junk: seq<Byte>): State
    requires w < |s.replicas|
  {
    s.(replicas := s.replicas[w := s.replicas[w].(buffer := junk)],
       voter := Sending(0), arrivals := 0, votes := s.votes + 1,
       printed := s.printed + Strip(s.replicas[w].buffer))
  }

  function Put(s: State, i: nat, r: Replica): State
    requires i < |s.replicas|
  {
    s.(replicas := s.replicas[i := r])
  }

  /** The state after the signal of replica i has been counted and before the test for a vote. */
  function Counted(s: State, i: nat): State
    requires i < |s.replicas| && s.replicas[i].full > 0
  {
    Put(s, i, s.replicas[i].(full := s.replicas[i].full - 1)).(arrivals := s.arrivals + 1)
  }

  function Apply(streams: Streams, s: State, step: Step): (s': State)
    requires |s.replicas| == |streams| && Enabled(streams, s, step)
    ensures |s'.replicas| == |streams|
  {
    var i := step.replica;
    var r := s.replicas[i];
    match step
    case TakeSignal(_, junk) =>
      var s' := Counted(s, i);
      if s'.arrivals >= |s.replicas| then Vote(s', junk) else s'
    case TakeEof(_) => Put(s, i, r.(dead := true))
    case Send(_) =>
      Put(s, i, r.(cont := r.cont + 1)).(voter := if i + 1 == |s.replicas| then Collecting else Sending(i + 1))
    case _ => Put(s, i, Move(streams[i], r, step))
  }

  /** Buffers start out with arbitrary contents. */
  predicate Init(streams: Streams, s: State) {
    && |s.replicas| == |streams|
    && (forall i :: 0 <= i < |s.replicas| ==>
          && |s.replicas[i].buffer| == BUFFER_LENGTH
          && s.replicas[i] == Replica(Reading(0, 0), s.replicas[i].buffer, 0, 0, false))
    && s.voter == Collecting && s.arrivals == 0 && s.printed == [] && s.votes == 0
  }

  ghost predicate IsRun(streams: Streams, run: seq<State>, steps: seq<Step>) {
    && |run| == |steps| + 1 && Init(streams, run[0])
    && (forall i :: 0 <= i < |run| ==> |run[i].replicas| == |streams|)
    && forall i :: 0 <= i < |steps| ==>
         Enabled(streams, run[i], steps[i]) && run[i + 1] == Apply(streams, run[i], steps[i])
  }

  // ---------------------------------------------------------------------
  // Which block a vote chooses
  // ---------------------------------------------------------------------

  function FingerprintsOf(blocks: seq<seq<Byte>>): seq<int> {
    seq(|blocks|, i requires 0 <= i < |blocks| => Fingerprint(blocks[i]))
  }

  /** i is the first replica whose block has the fingerprint of block c. */
  predicate FirstAlike(blocks: seq<seq<Byte>>, c: seq<Byte>, i: nat) {
    && i < |blocks| && Fingerprint(blocks[i]) == Fingerprint(c)
    && forall j :: 0 <= j < i ==> Fingerprint(blocks[j]) != Fingerprint(c)
  }

  /** Block b of every replica. */
  function BlocksAt(streams: Streams, b: nat): (r: seq<seq<Byte>>)
    ensures |r| == |streams|
  {
    seq(|streams|, i requires 0 <= i < |streams| => Block(streams[i], b))
  }

  /** What the vote on block b prints. */
  function Choice(streams: Streams, b: nat): seq<Byte>
    requires |streams| > 0
  {
    var blocks := BlocksAt(streams, b);
    Strip(blocks[Winner(FingerprintsOf(blocks))])
  }

  /** The replicas whose block b has the fingerprint that replica i's has. */
  ghost function Alike(streams: Streams, b: nat, i: nat): set<nat>
    requires i < |streams|
  {
    set j: nat | j < |streams| && Fingerprint(Block(streams[j], b)) == Fingerprint(Block(streams[i], b))
  }

  /**
   * A vote prints the block of the first replica that as many others agree
   * with by fingerprint as with any.
   */
  lemma ChoiceIsMostCommon(streams: Streams, b: nat, w: nat)
    requires w < |streams|
    requires forall i :: 0 <= i < |streams| ==> |Alike(streams, b, i)| <= |Alike(streams, b, w)|
    requires forall i :: 0 <= i < w ==> |Alike(streams, b, i)| < |Alike(streams, b, w)|
    ensures Choice(streams, b) == Strip(Block(streams[w], b))
  {
    var prints := FingerprintsOf(BlocksAt(streams, b));
    WinnerIsFirst(prints);
    forall i: nat | i < |streams|
      ensures |Alike(streams, b, i)| == Freq(prints, prints[i])
    {
      FreqIsCount(prints, prints[i]);
      assert Places(prints, prints[i]) == Alike(streams, b, i);
    }
    assert Winner(prints) == w;
  }

  /** No two replicas have the same fingerprint at block b. */
  predicate AllDiffer(streams: Streams, b: nat) {
    Distinct(FingerprintsOf(BlocksAt(streams, b)))
  }

  /** Up to block v some two replicas agreed on each. */
  predicate AgreedUpTo(streams: Streams, v: nat) {
    forall b: nat | b < v :: !AllDiffer(streams, b)
  }

  /** What the votes on the first v blocks print. */
  function Chosen(streams: Streams, v: nat): seq<Byte> {
    if v == 0 || streams == [] then [] else Chosen(streams, v - 1) + Choice(streams, v - 1)
  }

  /** The first replica with the fingerprint of the text's block b prints the same as that block. */
  ghost predicate ElectsText(streams: Streams, text: seq<Byte>, b: nat) {
    forall i: nat | FirstAlike(BlocksAt(streams, b), Block(text, b), i) ::
      Strip(BlocksAt(streams, b)[i]) == Strip(Block(text, b))
  }

  lemma {:induction false} FreqCarries<T>(streams: Streams, text: seq<Byte>, values: seq<T>, x: T)
    requires |values| == |streams|
    requires forall i :: 0 <= i < |streams| && streams[i] == text ==> values[i] == x
    ensures Freq(values, x) >= Freq(streams, text)
  {
    if streams != [] {
      var n := |streams| - 1;
      FreqCarries(streams[..n], text, values[..n], x);
    }
  }

  lemma FirstAlikeIsUnique(blocks: seq<seq<Byte>>, c: seq<Byte>, i: nat, j: nat)
    requires FirstAlike(blocks, c, i) && FirstAlike(blocks, c, j)
    ensures i == j
  {
  }

  lemma WinnerIsFirstAlike(blocks: seq<seq<Byte>>, c: seq<Byte>)
    requires 2 * Freq(blocks, c) > |blocks|
    ensures FirstAlike(blocks, c, Winner(FingerprintsOf(blocks)))
  {
    var prints := FingerprintsOf(blocks);
    FreqCarries(blocks, c, prints, Fingerprint(c));
    MajorityWins(prints, Fingerprint(c));
    forall j | 0 <= j < Winner(prints)
      ensures Fingerprint(blocks[j]) != Fingerprint(c)
    {
      assert prints[j] == Fingerprint(blocks[j]);
    }
  }

  /**
   * Even if most replicas agree on block c, what is printed is c if and only
   * if the first replica with the same fingerprint prints the same.
   */
  lemma MajorityIsPrintedIff(blocks: seq<seq<Byte>>, c: seq<Byte>)
    requires 2 * Freq(blocks, c) > |blocks|
    ensures FirstAlike(blocks, c, Winner(FingerprintsOf(blocks)))
    ensures Strip(blocks[Winner(FingerprintsOf(blocks))]) == Strip(c)
            <==> forall i: nat | FirstAlike(blocks, c, i) :: Strip(blocks[i]) == Strip(c)
  {
    var w := Winner(FingerprintsOf(blocks));
    WinnerIsFirstAlike(blocks, c);
    forall i: nat | FirstAlike(blocks, c, i)
      ensures i == w
    {
      FirstAlikeIsUnique(blocks, c, i, w);
    }
  }

  /** With a majority for the text, the vote on block b prints the text's block exactly if it elects it. */
  lemma ChoiceIsTextIff(streams: Streams, text: seq<Byte>, b: nat)
    requires Agree(streams, text)
    ensures Choice(streams, b) == Strip(Block(text, b)) <==> ElectsText(streams, text, b)
  {
    FreqCarries(streams, text, BlocksAt(streams, b), Block(text, b));
    MajorityIsPrintedIff(BlocksAt(streams, b), Block(text, b));
  }

  /** What the first v votes print is the first v blocks of the text. */
  ghost predicate ChosenIsText(streams: Streams, text: seq<Byte>, v: nat) {
    Chosen(streams, v) == Strip(Leading(text, v))
  }

  lemma NextChosen(streams: Streams, text: seq<Byte>, b: nat)
    requires Agree(streams, text) && ChosenIsText(streams, text, b)
    ensures ChosenIsText(streams, text, b + 1) <==> ElectsText(streams, text, b)
  {
    ChoiceIsTextIff(streams, text, b);
    PrintBlock(text, b);
    Cancel(Chosen(streams, b), Choice(streams, b), Strip(Block(text, b)));
  }

  lemma NoneChosen(streams: Streams, text: seq<Byte>)
    ensures ChosenIsText(streams, text, 0)
  {
    assert Leading(text, 0) == [];
  }

  /** If p goes on from b exactly when q holds of b, p holds up to n exactly when q holds below n. */
  lemma {:induction false} AsLongAs(p: nat -> bool, q: nat -> bool, n: nat)
    requires p(0) && forall b: nat | p(b) :: p(b + 1) <==> q(b)
    ensures (forall v: nat | v <= n :: p(v)) <==> forall b: nat | b < n :: q(b)
  {
    if n > 0 {
      AsLongAs(p, q, n - 1);
      assert p(n - 1) ==> (p((n - 1) + 1) <==> q(n - 1));
    }
  }

  /** What is printed follows the text, block after block, exactly as long as every vote elects it. */
  lemma ChosenIsTextIff(streams: Streams, text: seq<Byte>, n: nat)
    requires Agree(streams, text)
    ensures (forall v: nat | v <= n :: ChosenIsText(streams, text, v))
            <==> forall b: nat | b < n :: ElectsText(streams, text, b)
  {
    NoneChosen(streams, text);
    forall b: nat | ChosenIsText(streams, text, b)
      ensures ChosenIsText(streams, text, b + 1) <==> ElectsText(streams, text, b)
    {
      NextChosen(streams, text, b);
    }
    var p := (v: nat) => ChosenIsText(streams, text, v);
    var q := (b: nat) => ElectsText(streams, text, b);
    AsLongAs(p, q, n);
    assert forall v: nat :: p(v) <==> ChosenIsText(streams, text, v);
    assert forall b: nat :: q(b) <==> ElectsText(streams, text, b);
  }

  lemma Cancel<T>(a: seq<T>, b: seq<T>, c: seq<T>)
    ensures a + b == a + c <==> b == c
  {
    assert (a + b)[|a|..] == b && (a + c)[|a|..] == c;
  }

  // ---------------------------------------------------------------------
  // The invariant
  // ---------------------------------------------------------------------

  /** The voter has taken this reader's signal and not answered it. */
  predicate Taken(r: Replica) {
    (r.pc.Waiting? || r.pc.Finished?) && r.full == 0 && r.cont == 0
  }

  /** The next block of this reader after v votes; a block signalled holds its whole contents. */
  ghost predicate ReplicaOk(stream: seq<Byte>, r: Replica, v: nat, released: bool) {
    && |r.buffer| == BUFFER_LENGTH
    && (r.dead ==> r.pc.Finished? && r.full == 0)
    && match r.pc
       case Reading(b, n) =>
         && released && b == v && n <= BUFFER_LENGTH && r.full == 0 && r.cont == 0
         && Position(r.pc) <= |stream| && (b > 0 ==> n > 0)
         && r.buffer[..n] == Block(stream, b)[..n]
       case Padding(b, n) =>
         && released && b == v && n <= BUFFER_LENGTH && r.full == 0 && r.cont == 0
         && Position(r.pc) >= |stream| && LastBlock(stream, b)
         && r.buffer[..n] == Block(stream, b)[..n]
       case Waiting(b) => Position(r.pc) < |stream| && SignalledOk(stream, r, v, released)
       case Finished(b) => LastBlock(stream, b) && SignalledOk(stream, r, v, released)
  }

  predicate LastBlock(stream: seq<Byte>, b: nat) {
    b + 1 == Blocks(stream)
  }

  ghost predicate SignalledOk(stream: seq<Byte>, r: Replica, v: nat, released: bool)
    requires r.pc.Waiting? || r.pc.Finished?
  {
    && r.full + r.cont <= 1
    && (!released ==> r.full == 0 && r.cont == 0 && r.pc.block + 1 == v)
    && (released && r.cont == 1 ==> r.pc.block + 1 == v)
    && (released && r.cont == 0 ==> r.pc.block == v && r.buffer == Block(stream, v))
  }

  predicate Released(s: State, i: nat) {
    s.voter.Sending? ==> i < s.voter.next
  }

  function TakenCount(reps: seq<Replica>): (n: nat)
    ensures n <= |reps|
  {
    if reps == [] then 0 else TakenCount(reps[..|reps| - 1]) + if Taken(reps[|reps| - 1]) then 1 else 0
  }

  ghost predicate VoterOk(s: State) {
    match s.voter
    case Collecting => s.arrivals == TakenCount(s.replicas) < |s.replicas|
    case Sending(k) =>
      && s.arrivals == 0 && k < |s.replicas|
      && forall i :: 0 <= i < |s.replicas| ==> (Taken(s.replicas[i]) <==> i >= k)
    case Exited => s.arrivals == 0 && forall i :: 0 <= i < |s.replicas| ==> Taken(s.replicas[i])
  }

  /** What the theorems need of the replicas: more than half of them emit the text itself. */
  ghost predicate Agree(streams: Streams, text: seq<Byte>) {
    |streams| >= 2 && 2 * Freq(streams, text) > |streams|
  }

  ghost predicate Inv(streams: Streams, s: State) {
    && |s.replicas| == |streams| > 0
    && (forall i :: 0 <= i < |s.replicas| ==> ReplicaOk(streams[i], s.replicas[i], s.votes, Released(s, i)))
    && VoterOk(s)
    && OutputOk(streams, s.printed, s.votes)
    && (s.voter.Exited? ==> AllDiffer(streams, s.votes))
  }

  /** What v votes have printed. */
  ghost predicate OutputOk(streams: Streams, printed: seq<Byte>, v: nat) {
    printed == Chosen(streams, v) && NoneExhausted(streams, v) && AgreedUpTo(streams, v)
  }

  /** Every replica has at least v blocks to send. */
  predicate NoneExhausted(streams: Streams, v: nat) {
    forall i :: 0 <= i < |streams| ==> v <= Blocks(streams[i])
  }

  // ---------------------------------------------------------------------
  // Counting arrivals
  // ---------------------------------------------------------------------

  function Flag(b: bool): nat {
    if b then 1 else 0
  }

  lemma {:induction false} TakenAfter(reps: seq<Replica>, i: nat, r: Replica)
    requires i < |reps|
    ensures TakenCount(reps[i := r]) == TakenCount(reps) - Flag(Taken(reps[i])) + Flag(Taken(r))
  {
    var n := |reps| - 1;
    if i == n {
      assert reps[i := r][..n] == reps[..n];
    } else {
      TakenAfter(reps[..n], i, r);
      assert reps[i := r][..n] == reps[..n][i := r];
    }
  }

  lemma {:induction false} AllTaken(reps: seq<Replica>)
    ensures TakenCount(reps) == |reps| <==> forall i :: 0 <= i < |reps| ==> Taken(reps[i])
    ensures (forall i :: 0 <= i < |reps| ==> !Taken(reps[i])) ==> TakenCount(reps) == 0
  {
    if reps != [] {
      AllTaken(reps[..|reps| - 1]);
    }
  }

  // ---------------------------------------------------------------------
  // Every step keeps the invariant
  // ---------------------------------------------------------------------

  predicate ReaderStep(step: Step) {
    step.ReadChar? || step.Resume? || step.ReadEof? || step.Pad? || step.FinalSignal?
  }

  lemma PrefixGrows(buffer: seq<Byte>, block: seq<Byte>, n: nat)
    requires |buffer| == |block| && n < |block| && buffer[..n] == block[..n]
    ensures buffer[n := block[n]][..n + 1] == block[..n + 1]
  {
    assert block[..n + 1] == block[..n] + [block[n]];
    assert buffer[n := block[n]][..n + 1] == buffer[..n] + [block[n]];
  }

  lemma WholeBuffer(buffer: seq<Byte>, block: seq<Byte>)
    requires |buffer| == |block| == BUFFER_LENGTH && buffer[..BUFFER_LENGTH] == block[..BUFFER_LENGTH]
    ensures buffer == block
  {
    assert buffer[..BUFFER_LENGTH] == buffer && block[..BUFFER_LENGTH] == block;
  }

  lemma MoveKeeps(streams: Streams, s: State, step: Step)
    requires |s.replicas| == |streams| && Enabled(streams, s, step) && ReaderStep(step)
    requires var i := step.replica; ReplicaOk(streams[i], s.replicas[i], s.votes, Released(s, i))
    ensures var i := step.replica;
            && ReplicaOk(streams[i], Move(streams[i], s.replicas[i], step), s.votes, Released(s, i))
            && !Taken(s.replicas[i]) && !Taken(Move(streams[i], s.replicas[i], step))
  {
    var r, stream := s.replicas[step.replica], streams[step.replica];
    var r' := Move(stream, r, step);
    match step
    case ReadChar(_) =>
      if r.pc.count < BUFFER_LENGTH {
        PrefixGrows(r.buffer, Block(stream, r.pc.block), r.pc.count);
      } else {
        WholeBuffer(r.buffer, Block(stream, s.votes));
      }
    case Resume(_) => PrefixGrows(r.buffer, Block(stream, r.pc.block + 1), 0);
    case ReadEof(_) =>
    case Pad(_) => PrefixGrows(r.buffer, Block(stream, r.pc.block), r.pc.count);
    case FinalSignal(_) =>
      WholeBuffer(r.buffer, Block(stream, s.votes));
  }

  lemma PutKeeps(streams: Streams, s: State, i: nat, r: Replica)
    requires Inv(streams, s) && i < |s.replicas|
    requires ReplicaOk(streams[i], r, s.votes, Released(s, i)) && (Taken(r) <==> Taken(s.replicas[i]))
    ensures Inv(streams, Put(s, i, r))
  {
    TakenAfter(s.replicas, i, r);
    var s' := Put(s, i, r);
    forall j | 0 <= j < |s'.replicas|
      ensures ReplicaOk(streams[j], s'.replicas[j], s'.votes, Released(s', j))
    {
      assert ReplicaOk(streams[j], s.replicas[j], s.votes, Released(s, j));
    }
  }

  /** What every replica looks like when the last signal of a round has been taken. */
  ghost predicate AllSignalled(streams: Streams, s: State) {
    && |s.replicas| == |streams|
    && forall i :: 0 <= i < |s.replicas| ==>
         && Taken(s.replicas[i]) && ReplicaOk(streams[i], s.replicas[i], s.votes, true)
  }

  /** Some replica emits the text, so what every replica has at least, the text has. */
  lemma TextIsEmitted(streams: Streams, text: seq<Byte>)
    requires Agree(streams, text)
    ensures text in streams
    ensures forall v: nat :: NoneExhausted(streams, v) ==> v <= Blocks(text)
  {
    FirstOccurrence(streams, text);
  }

  lemma VotedAll(streams: Streams, s: State)
    requires AllSignalled(streams, s)
    ensures NoneExhausted(streams, s.votes + 1)
  {
    forall i | 0 <= i < |streams|
      ensures s.votes + 1 <= Blocks(streams[i])
    {
      assert Taken(s.replicas[i]) && ReplicaOk(streams[i], s.replicas[i], s.votes, true);
    }
  }

  /** The vote is on the blocks themselves: it chooses among them, and finds no agreement exactly when all differ. */
  lemma VoteIsChoice(streams: Streams, s: State)
    requires |streams| > 0 && AllSignalled(streams, s)
    ensures var prints := Fingerprints(s.replicas);
            var w := Winner(prints);
            && (Freq(prints, prints[w]) < 2 <==> AllDiffer(streams, s.votes))
            && Strip(s.replicas[w].buffer) == Choice(streams, s.votes)
  {
    var prints := Fingerprints(s.replicas);
    forall i | 0 <= i < |streams|
      ensures s.replicas[i].buffer == Block(streams[i], s.votes)
    {
      assert Taken(s.replicas[i]) && ReplicaOk(streams[i], s.replicas[i], s.votes, true);
    }
    assert prints == FingerprintsOf(BlocksAt(streams, s.votes));
    NoAgreementIff(prints);
  }

  /** With a majority for a text the replicas never all differ. */
  lemma MajorityAgrees(streams: Streams, text: seq<Byte>, b: nat)
    requires Agree(streams, text)
    ensures !AllDiffer(streams, b)
  {
    var prints, x := FingerprintsOf(BlocksAt(streams, b)), Fingerprint(Block(text, b));
    FreqCarries(streams, text, prints, x);
    OccursTwice(prints, x);
  }

  /** After the vote a replica has signalled block v and has not been answered; its buffer may be junk. */
  lemma VotedReplica(stream: seq<Byte>, r: Replica, v: nat, buffer: seq<Byte>)
    requires Taken(r) && ReplicaOk(stream, r, v, true) && |buffer| == BUFFER_LENGTH
    ensures Taken(r.(buffer := buffer)) && ReplicaOk(stream, r.(buffer := buffer), v + 1, false)
    ensures v + 1 <= Blocks(stream)
  {
  }

  lemma VoteKeeps(streams: Streams, s: State, junk: seq<Byte>)
    requires |streams| > 0 && AllSignalled(streams, s) && |junk| == BUFFER_LENGTH
    requires OutputOk(streams, s.printed, s.votes)
    ensures Inv(streams, Vote(s, junk))
    ensures Vote(s, junk).voter.Exited? <==> AllDiffer(streams, s.votes)
    ensures Vote(s, junk).votes == if AllDiffer(streams, s.votes) then s.votes else s.votes + 1
  {
    VoteIsChoice(streams, s);
    if AllDiffer(streams, s.votes) {
      ExitKeeps(streams, s);
    } else {
      VotedAll(streams, s);
      OutputGrows(streams, s.printed, s.votes);
      VotedKeeps(streams, s, Winner(Fingerprints(s.replicas)), junk);
    }
  }

  lemma ExitKeeps(streams: Streams, s: State)
    requires |streams| > 0 && AllSignalled(streams, s)
    requires OutputOk(streams, s.printed, s.votes) && AllDiffer(streams, s.votes)
    ensures Inv(streams, s.(voter := Exited, arrivals := 0))
  {
    forall i | 0 <= i < |streams|
      ensures Taken(s.replicas[i]) && ReplicaOk(streams[i], s.replicas[i], s.votes, true)
    {
    }
  }

  /** The state after a vote that the reader w won. */
  lemma VotedKeeps(streams: Streams, s: State, w: nat, junk: seq<Byte>)
    requires AllSignalled(streams, s) && w < |s.replicas| && |junk| == BUFFER_LENGTH
    requires |streams| > 0 && OutputOk(streams, s.printed + Strip(s.replicas[w].buffer), s.votes + 1)
    ensures Inv(streams, Voted(s, w, junk))
  {
    VotedReplicas(streams, s, w, junk);
  }

  lemma OutputGrows(streams: Streams, printed: seq<Byte>, v: nat)
    requires |streams| > 0 && OutputOk(streams, printed, v) && NoneExhausted(streams, v + 1) && !AllDiffer(streams, v)
    ensures OutputOk(streams, printed + Choice(streams, v), v + 1)
  {
    AgreedOnceMore(streams, v);
    ChosenOnceMore(streams, v);
  }

  lemma AgreedOnceMore(streams: Streams, v: nat)
    requires AgreedUpTo(streams, v) && !AllDiffer(streams, v)
    ensures AgreedUpTo(streams, v + 1)
  {
    forall b: nat | b < v + 1
      ensures !AllDiffer(streams, b)
    {
      if b == v { assert !AllDiffer(streams, b); }
    }
  }

  lemma ChosenOnceMore(streams: Streams, v: nat)
    requires |streams| > 0
    ensures Chosen(streams, v + 1) == Chosen(streams, v) + Choice(streams, v)
  {
  }

  lemma VotedReplicas(streams: Streams, s: State, w: nat, junk: seq<Byte>)
    requires AllSignalled(streams, s) && w < |s.replicas| && |junk| == BUFFER_LENGTH
    ensures var s' := Voted(s, w, junk);
            forall i :: 0 <= i < |s'.replicas| ==>
              Taken(s'.replicas[i]) && ReplicaOk(streams[i], s'.replicas[i], s'.votes, Released(s', i))
  {
    var s' := Voted(s, w, junk);
    forall i | 0 <= i < |s'.replicas|
      ensures Taken(s'.replicas[i]) && ReplicaOk(streams[i], s'.replicas[i], s'.votes, Released(s', i))
    {
      assert Taken(s.replicas[i]) && ReplicaOk(streams[i], s.replicas[i], s.votes, true);
      VotedReplica(streams[i], s.replicas[i], s.votes, if i == w then junk else s.replicas[i].buffer);
    }
  }

  lemma TakenReplica(stream: seq<Byte>, r: Replica, v: nat)
    requires ReplicaOk(stream, r, v, true) && r.full > 0 && !r.dead
    ensures !Taken(r) && Taken(r.(full := r.full - 1)) && ReplicaOk(stream, r.(full := r.full - 1), v, true)
  {
  }

  /** Counting a signal raises the arrivals as it raises the number of signals taken. */
  lemma CountedArrivals(streams: Streams, s: State, i: nat)
    requires |s.replicas| == |streams| && s.voter.Collecting? && VoterOk(s)
    requires i < |s.replicas| && s.replicas[i].full > 0 && !s.replicas[i].dead
    requires ReplicaOk(streams[i], s.replicas[i], s.votes, true)
    ensures Counted(s, i).arrivals == TakenCount(Counted(s, i).replicas)
  {
    TakenReplica(streams[i], s.replicas[i], s.votes);
    TakenAfter(s.replicas, i, s.replicas[i].(full := s.replicas[i].full - 1));
  }

  lemma CountedReplicas(streams: Streams, s: State, i: nat)
    requires |s.replicas| == |streams| && s.voter.Collecting?
    requires i < |s.replicas| && s.replicas[i].full > 0 && !s.replicas[i].dead
    requires forall j :: 0 <= j < |s.replicas| ==> ReplicaOk(streams[j], s.replicas[j], s.votes, Released(s, j))
    ensures forall j :: 0 <= j < |s.replicas| ==> ReplicaOk(streams[j], Counted(s, i).replicas[j], s.votes, true)
  {
    assert ReplicaOk(streams[i], s.replicas[i], s.votes, Released(s, i));
    TakenReplica(streams[i], s.replicas[i], s.votes);
    TakenKeepsOthers(streams, s, i, s.replicas[i].(full := s.replicas[i].full - 1));
  }

  lemma CountedOk(streams: Streams, s: State, i: nat)
    requires Inv(streams, s) && s.voter.Collecting?
    requires i < |s.replicas| && s.replicas[i].full > 0 && !s.replicas[i].dead
    ensures var s' := Counted(s, i);
            && s'.arrivals == TakenCount(s'.replicas)
            && forall j :: 0 <= j < |s'.replicas| ==> ReplicaOk(streams[j], s'.replicas[j], s.votes, true)
  {
    assert ReplicaOk(streams[i], s.replicas[i], s.votes, Released(s, i));
    CountedArrivals(streams, s, i);
    CountedReplicas(streams, s, i);
  }

  lemma TakeKeeps(streams: Streams, s: State, i: nat, junk: seq<Byte>)
    requires Inv(streams, s) && Enabled(streams, s, TakeSignal(i, junk))
    ensures Inv(streams, Apply(streams, s, TakeSignal(i, junk)))
  {
    CountedOk(streams, s, i);
    CountedKeeps(streams, Counted(s, i), junk);
  }

  lemma CountedKeeps(streams: Streams, s: State, junk: seq<Byte>)
    requires |s.replicas| == |streams| > 0 && |junk| == BUFFER_LENGTH
    requires s.voter.Collecting? && s.arrivals == TakenCount(s.replicas)
    requires forall j :: 0 <= j < |s.replicas| ==> ReplicaOk(streams[j], s.replicas[j], s.votes, true)
    requires OutputOk(streams, s.printed, s.votes)
    ensures Inv(streams, if s.arrivals >= |s.replicas| then Vote(s, junk) else s)
  {
    AllTaken(s.replicas);
    if s.arrivals >= |s.replicas| {
      VoteKeeps(streams, s, junk);
    }
  }

  lemma TakenKeepsOthers(streams: Streams, s: State, i: nat, r: Replica)
    requires |s.replicas| == |streams| && i < |s.replicas| && s.voter.Collecting?
    requires forall j :: 0 <= j < |s.replicas| ==> ReplicaOk(streams[j], s.replicas[j], s.votes, Released(s, j))
    requires ReplicaOk(streams[i], r, s.votes, true)
    ensures forall j :: 0 <= j < |s.replicas| ==> ReplicaOk(streams[j], s.replicas[i := r][j], s.votes, true)
  {
    forall j | 0 <= j < |s.replicas|
      ensures ReplicaOk(streams[j], s.replicas[i := r][j], s.votes, true)
    {
      assert ReplicaOk(streams[j], s.replicas[j], s.votes, Released(s, j));
    }
  }

  lemma SendKeeps(streams: Streams, s: State, i: nat)
    requires Inv(streams, s) && Enabled(streams, s, Send(i))
    ensures Inv(streams, Apply(streams, s, Send(i)))
  {
    var s' := Apply(streams, s, Send(i));
    SentReplicas(streams, s, i);
    AllTaken(s'.replicas);
  }

  lemma SentReplicas(streams: Streams, s: State, i: nat)
    requires Inv(streams, s) && Enabled(streams, s, Send(i))
    ensures var s' := Apply(streams, s, Send(i));
            forall j :: 0 <= j < |s'.replicas| ==>
              && ReplicaOk(streams[j], s'.replicas[j], s'.votes, Released(s', j))
              && (Taken(s'.replicas[j]) <==> j > i)
  {
    var s' := Apply(streams, s, Send(i));
    SentReplica(streams[i], s.replicas[i], s.votes, Released(s, i));
    forall j | 0 <= j < |s'.replicas|
      ensures ReplicaOk(streams[j], s'.replicas[j], s'.votes, Released(s', j)) && (Taken(s'.replicas[j]) <==> j > i)
    {
      assert ReplicaOk(streams[j], s.replicas[j], s.votes, Released(s, j));
    }
  }

  lemma SentReplica(stream: seq<Byte>, r: Replica, v: nat, released: bool)
    requires Taken(r) && !released && ReplicaOk(stream, r, v, released)
    ensures !Taken(r.(cont := r.cont + 1)) && ReplicaOk(stream, r.(cont := r.cont + 1), v, true)
  {
  }

  lemma StepKeeps(streams: Streams, s: State, step: Step)
    requires Inv(streams, s) && Enabled(streams, s, step)
    ensures Inv(streams, Apply(streams, s, step))
  {
    var i := step.replica;
    assert ReplicaOk(streams[i], s.replicas[i], s.votes, Released(s, i));
    match step
    case TakeSignal(_, junk) => TakeKeeps(streams, s, i, junk);
    case TakeEof(_) => PutKeeps(streams, s, i, s.replicas[i].(dead := true));
    case Send(_) => SendKeeps(streams, s, i);
    case _ =>
      MoveKeeps(streams, s, step);
      PutKeeps(streams, s, i, Move(streams[i], s.replicas[i], step));
  }

  lemma InitKeeps(streams: Streams, s: State)
    requires |streams| > 0 && Init(streams, s)
    ensures Inv(streams, s)
  {
    forall i | 0 <= i < |s.replicas|
      ensures !Taken(s.replicas[i]) && ReplicaOk(streams[i], s.replicas[i], 0, Released(s, i))
    {
      assert s.replicas[i].buffer[..0] == Block(streams[i], 0)[..0];
    }
    AllTaken(s.replicas);
  }

  lemma {:induction false} RunKeeps(streams: Streams, run: seq<State>, steps: seq<Step>, n: nat)
    requires |streams| > 0 && IsRun(streams, run, steps) && n < |run|
    ensures Inv(streams, run[n])
  {
    if n == 0 {
      InitKeeps(streams, run[0]);
    } else {
      RunKeeps(streams, run, steps, n - 1);
      assert Enabled(streams, run[n - 1], steps[n - 1]);
      StepKeeps(streams, run[n - 1], steps[n - 1]);
    }
  }

  // ---------------------------------------------------------------------
  // What every schedule achieves
  // ---------------------------------------------------------------------

  /** In every run, what is printed is what the votes so far chose; the voter has given up only where all differed. */
  lemma PrintedIsChosen(streams: Streams, run: seq<State>, steps: seq<Step>, n: nat)
    requires |streams| > 0 && IsRun(streams, run, steps) && n < |run|
    ensures run[n].printed == Chosen(streams, run[n].votes) && AgreedUpTo(streams, run[n].votes)
    ensures run[n].voter.Exited? ==> AllDiffer(streams, run[n].votes)
  {
    RunKeeps(streams, run, steps, n);
  }

  /** The step takes the last signal of a round. */
  predicate HoldsVote(s: State, step: Step) {
    step.TakeSignal? && s.arrivals + 1 >= |s.replicas|
  }

  /** The voter exits at a vote if and only if all fingerprints of the block differ, and at no other time. */
  lemma VoterExitsIff(streams: Streams, run: seq<State>, steps: seq<Step>, n: nat)
    requires |streams| > 0 && IsRun(streams, run, steps) && n < |steps|
    ensures !run[n].voter.Exited?
    ensures run[n + 1].voter.Exited? <==> HoldsVote(run[n], steps[n]) && AllDiffer(streams, run[n].votes)
    ensures run[n + 1].votes == run[n].votes +
              if HoldsVote(run[n], steps[n]) && !AllDiffer(streams, run[n].votes) then 1 else 0
  {
    RunKeeps(streams, run, steps, n);
    StepExitsIff(streams, run[n], steps[n]);
  }

  lemma StepExitsIff(streams: Streams, s: State, step: Step)
    requires Inv(streams, s) && Enabled(streams, s, step)
    ensures !s.voter.Exited?
    ensures var s' := Apply(streams, s, step);
            && (s'.voter.Exited? <==> HoldsVote(s, step) && AllDiffer(streams, s.votes))
            && s'.votes == s.votes + if HoldsVote(s, step) && !AllDiffer(streams, s.votes) then 1 else 0
  {
    if s.voter.Exited? { ExitIsFinal(streams, s, step); }
    if HoldsVote(s, step) {
      CountedOk(streams, s, step.replica);
      AllTaken(Counted(s, step.replica).replicas);
      VoteKeeps(streams, Counted(s, step.replica), step.junk);
    }
  }

  /** Nothing happens after the voter has given up: every reader waits for it or has finished. */
  lemma ExitIsFinal(streams: Streams, s: State, step: Step)
    requires Inv(streams, s) && s.voter.Exited?
    ensures !Enabled(streams, s, step)
  {
    if step.replica < |s.replicas| {
      assert Taken(s.replicas[step.replica]);
      assert ReplicaOk(streams[step.replica], s.replicas[step.replica], s.votes, Released(s, step.replica));
    }
  }

  /** With a majority for a text the voter never gives up, and never gets past its end. */
  lemma VoterGoesOn(streams: Streams, text: seq<Byte>, run: seq<State>, steps: seq<Step>, n: nat)
    requires Agree(streams, text) && IsRun(streams, run, steps) && n < |run|
    ensures run[n].voter != Exited && run[n].votes <= Blocks(text)
  {
    RunKeeps(streams, run, steps, n);
    TextIsEmitted(streams, text);
    MajorityAgrees(streams, text, run[n].votes);
  }

  /** The output so far was always a whole number of leading blocks of the text. */
  ghost predicate FollowsText(text: seq<Byte>, run: seq<State>, n: nat)
    requires n < |run|
  {
    forall m: nat | m <= n :: run[m].printed == Strip(Leading(text, run[m].votes))
  }

  /**
   * Up to any point of a run the output follows the text if and only if every
   * vote so far elected it; a text without zero bytes is then printed as it is.
   */
  lemma PrintedIsLeadingBlocks(streams: Streams, text: seq<Byte>, run: seq<State>, steps: seq<Step>, n: nat)
    requires Agree(streams, text) && IsRun(streams, run, steps) && n < |run|
    ensures FollowsText(text, run, n) <==> forall b: nat | b < run[n].votes :: ElectsText(streams, text, b)
    ensures FollowsText(text, run, n) && NUL !in text ==> run[n].printed == Leading(text, run[n].votes)
  {
    ChosenIsTextIff(streams, text, run[n].votes);
    if FollowsText(text, run, n) {
      StripIsFaithful(Leading(text, run[n].votes));
      forall v: nat | v <= run[n].votes
        ensures ChosenIsText(streams, text, v)
      {
        var m := VotesHeld(streams, run, steps, n, v);
        PrintedIsChosen(streams, run, steps, m);
      }
    }
    if forall v: nat | v <= run[n].votes :: ChosenIsText(streams, text, v) {
      forall m: nat | m <= n
        ensures run[m].printed == Strip(Leading(text, run[m].votes))
      {
        PrintedIsChosen(streams, run, steps, m);
        VotesGrow(streams, run, steps, m, n);
        assert ChosenIsText(streams, text, run[m].votes);
      }
    }
  }

  /** Votes are held one at a time. */
  lemma VotesStep(streams: Streams, run: seq<State>, steps: seq<Step>, n: nat)
    requires IsRun(streams, run, steps) && n < |steps|
    ensures run[n].votes <= run[n + 1].votes <= run[n].votes + 1
  {
  }

  lemma {:induction false} VotesGrow(streams: Streams, run: seq<State>, steps: seq<Step>, m: nat, n: nat)
    requires IsRun(streams, run, steps) && m <= n < |run|
    ensures run[m].votes <= run[n].votes
  {
    if m < n {
      VotesGrow(streams, run, steps, m, n - 1);
      VotesStep(streams, run, steps, n - 1);
    }
  }

  /** Every number of votes up to the present one was the number at some time. */
  lemma {:induction false} VotesHeld(streams: Streams, run: seq<State>, steps: seq<Step>, n: nat, v: nat)
    returns (m: nat)
    requires IsRun(streams, run, steps) && n < |run| && v <= run[n].votes
    ensures m <= n && run[m].votes == v
  {
    if v == run[n].votes {
      m := n;
    } else {
      VotesStep(streams, run, steps, n - 1);
      m := VotesHeld(streams, run, steps, n - 1, v);
    }
  }

  /** Every vote finds each reader stopped behind one complete block, and it is the one after that of the last vote. */
  lemma VotesSeeFreshBlocks(streams: Streams, run: seq<State>, steps: seq<Step>, n: nat, i: nat)
    requires |streams| > 0 && IsRun(streams, run, steps) && n < |steps| && i < |streams|
    requires run[n + 1].votes != run[n].votes
    ensures run[n + 1].votes == run[n].votes + 1
    ensures run[n].replicas[i].buffer == Block(streams[i], run[n].votes)
    ensures run[n].replicas[i].pc == Waiting(run[n].votes) || run[n].replicas[i].pc == Finished(run[n].votes)
    ensures forall step: Step | ReaderStep(step) && step.replica == i :: !Enabled(streams, run[n], step)
  {
    RunKeeps(streams, run, steps, n);
    VoteSeesFreshBlocks(streams, run[n], steps[n], i);
  }

  lemma VoteSeesFreshBlocks(streams: Streams, s: State, step: Step, i: nat)
    requires Inv(streams, s) && Enabled(streams, s, step) && i < |streams|
    requires Apply(streams, s, step).votes != s.votes
    ensures Apply(streams, s, step).votes == s.votes + 1
    ensures s.replicas[i].buffer == Block(streams[i], s.votes)
    ensures s.replicas[i].pc == Waiting(s.votes) || s.replicas[i].pc == Finished(s.votes)
    ensures forall step': Step | ReaderStep(step') && step'.replica == i :: !Enabled(streams, s, step')
  {
    LastSignalTaken(streams, s, step.replica, i);
  }

  lemma LastSignalTaken(streams: Streams, s: State, k: nat, i: nat)
    requires Inv(streams, s) && s.voter.Collecting? && i < |streams|
    requires k < |streams| && s.replicas[k].full > 0 && !s.replicas[k].dead && Counted(s, k).arrivals >= |streams|
    ensures s.replicas[i].buffer == Block(streams[i], s.votes) && s.replicas[i].cont == 0
    ensures s.replicas[i].pc == Waiting(s.votes) || s.replicas[i].pc == Finished(s.votes)
  {
    CountedOk(streams, s, k);
    AllTaken(Counted(s, k).replicas);
    assert Taken(Counted(s, k).replicas[i]);
    assert ReplicaOk(streams[i], s.replicas[i], s.votes, Released(s, i));
  }

  // ---------------------------------------------------------------------
  // Every schedule comes to an end, and it ends with the whole text printed
  // ---------------------------------------------------------------------

  /** How far a signal is from being answered: in the pipe, taken, or answered and not yet seen. */
  function Phase(r: Replica): nat {
    if r.full > 0 then 4 else if r.cont > 0 then 2 else 3
  }

  function Left(stream: seq<Byte>, pc: Pc): nat {
    if Position(pc) < |stream| then |stream| - Position(pc) else 0
  }

  /** More than the number of steps that still concern this replica. */
  function Weight(stream: seq<Byte>, r: Replica): nat {
    var rest := match r.pc
      case Reading(_, _) => 8 * Left(stream, r.pc) + BUFFER_LENGTH + 10
      case Waiting(_) => 8 * Left(stream, r.pc) + BUFFER_LENGTH + 4 + Phase(r)
      case Padding(_, n) => if n < BUFFER_LENGTH then BUFFER_LENGTH - n + 9 else 9
      case Finished(_) => 4 + Phase(r);
    rest + if r.dead then 0 else 1
  }

  function Total(streams: Streams, reps: seq<Replica>): nat
    requires |streams| == |reps|
  {
    if reps == [] then 0
    else
      var n := |reps| - 1;
      Total(streams[..n], reps[..n]) + Weight(streams[n], reps[n])
  }

  lemma {:induction false} TotalAfter(streams: Streams, reps: seq<Replica>, i: nat, r: Replica)
    requires |streams| == |reps| && i < |reps|
    ensures Total(streams, reps[i := r]) == Total(streams, reps) - Weight(streams[i], reps[i]) + Weight(streams[i], r)
  {
    var n := |reps| - 1;
    if i == n {
      assert reps[i := r][..n] == reps[..n];
    } else {
      TotalAfter(streams[..n], reps[..n], i, r);
      assert reps[i := r][..n] == reps[..n][i := r];
    }
  }

  lemma MoveWeighsLess(streams: Streams, s: State, step: Step)
    requires |s.replicas| == |streams| && Enabled(streams, s, step) && ReaderStep(step)
    requires var i := step.replica; ReplicaOk(streams[i], s.replicas[i], s.votes, Released(s, i))
    ensures var i := step.replica;
            Weight(streams[i], Move(streams[i], s.replicas[i], step)) < Weight(streams[i], s.replicas[i])
  {
  }

  lemma TakeDecreases(streams: Streams, s: State, i: nat, junk: seq<Byte>)
    requires |s.replicas| == |streams| && i < |streams| && s.replicas[i].full > 0 && !s.replicas[i].dead
    requires ReplicaOk(streams[i], s.replicas[i], s.votes, true)
    ensures Total(streams, Counted(s, i).replicas) < Total(streams, s.replicas)
    ensures Total(streams, Vote(Counted(s, i), junk).replicas) == Total(streams, Counted(s, i).replicas)
  {
    var r := s.replicas[i].(full := s.replicas[i].full - 1);
    TakenWeighsLess(streams[i], s.replicas[i], s.votes);
    TotalAfter(streams, s.replicas, i, r);
    VoteWeighsNothing(streams, Counted(s, i), junk);
  }

  lemma TakenWeighsLess(stream: seq<Byte>, r: Replica, v: nat)
    requires ReplicaOk(stream, r, v, true) && r.full > 0 && !r.dead
    ensures Weight(stream, r.(full := r.full - 1)) < Weight(stream, r)
  {
  }

  lemma VoteWeighsNothing(streams: Streams, s: State, junk: seq<Byte>)
    requires |s.replicas| == |streams| > 0
    ensures Total(streams, Vote(s, junk).replicas) == Total(streams, s.replicas)
  {
    JunkWeighsNothing(streams, s.replicas, Winner(Fingerprints(s.replicas)), junk);
  }

  lemma JunkWeighsNothing(streams: Streams, reps: seq<Replica>, w: nat, junk: seq<Byte>)
    requires |reps| == |streams| && w < |reps|
    ensures Total(streams, reps[w := reps[w].(buffer := junk)]) == Total(streams, reps)
  {
    TotalAfter(streams, reps, w, reps[w].(buffer := junk));
  }

  /** What a step other than taking a signal makes of its replica. */
  function Next(streams: Streams, s: State, step: Step): Replica
    requires |s.replicas| == |streams| && Enabled(streams, s, step) && !step.TakeSignal?
  {
    var r := s.replicas[step.replica];
    if step.TakeEof? then r.(dead := true)
    else if step.Send? then r.(cont := r.cont + 1)
    else Move(streams[step.replica], r, step)
  }

  lemma NextWeighsLess(streams: Streams, s: State, step: Step)
    requires |s.replicas| == |streams| && Enabled(streams, s, step) && !step.TakeSignal?
    requires var i := step.replica; ReplicaOk(streams[i], s.replicas[i], s.votes, Released(s, i))
    requires step.Send? ==> Taken(s.replicas[step.replica])
    ensures Apply(streams, s, step).replicas == s.replicas[step.replica := Next(streams, s, step)]
    ensures var i := step.replica; Weight(streams[i], Next(streams, s, step)) < Weight(streams[i], s.replicas[i])
  {
    if ReaderStep(step) { MoveWeighsLess(streams, s, step); }
  }

  lemma StepDecreases(streams: Streams, s: State, step: Step)
    requires Inv(streams, s) && Enabled(streams, s, step)
    ensures Total(streams, Apply(streams, s, step).replicas) < Total(streams, s.replicas)
  {
    assert ReplicaOk(streams[step.replica], s.replicas[step.replica], s.votes, Released(s, step.replica));
    StepWeighsLess(streams, s, step);
  }

  lemma StepWeighsLess(streams: Streams, s: State, step: Step)
    requires |s.replicas| == |streams| && Enabled(streams, s, step)
    requires var i := step.replica; ReplicaOk(streams[i], s.replicas[i], s.votes, Released(s, i))
    requires step.Send? ==> Taken(s.replicas[step.replica])
    ensures Total(streams, Apply(streams, s, step).replicas) < Total(streams, s.replicas)
  {
    var i := step.replica;
    if step.TakeSignal? {
      TakeDecreases(streams, s, i, step.junk);
    } else {
      NextWeighsLess(streams, s, step);
      TotalAfter(streams, s.replicas, i, Next(streams, s, step));
    }
  }

  /** A bound on the length of every schedule. */
  function Bound(streams: Streams): nat {
    if streams == [] then 0
    else Bound(streams[..|streams| - 1]) + 8 * |streams[|streams| - 1]| + BUFFER_LENGTH + 11
  }

  lemma {:induction false} InitialTotal(streams: Streams, reps: seq<Replica>)
    requires |streams| == |reps|
    requires forall i :: 0 <= i < |reps| ==> reps[i].pc == Reading(0, 0) && !reps[i].dead
    ensures Total(streams, reps) == Bound(streams)
  {
    if reps != [] {
      InitialTotal(streams[..|reps| - 1], reps[..|reps| - 1]);
    }
  }

  /** No schedule is longer than the bound. */
  lemma RunsAreBounded(streams: Streams, run: seq<State>, steps: seq<Step>, n: nat)
    requires |streams| > 0 && IsRun(streams, run, steps) && n < |run|
    ensures n + Total(streams, run[n].replicas) <= Bound(streams)
  {
    InitialBound(streams, run[0]);
    forall i: nat | i < n
      ensures Total(streams, run[i + 1].replicas) < Total(streams, run[i].replicas)
    {
      RunDecreases(streams, run, steps, i);
    }
    Descent(streams, run, n);
  }

  lemma {:induction false} Descent(streams: Streams, run: seq<State>, n: nat)
    requires n < |run| && forall i :: 0 <= i < |run| ==> |run[i].replicas| == |streams|
    requires forall i: nat | i < n :: Total(streams, run[i + 1].replicas) < Total(streams, run[i].replicas)
    ensures n + Total(streams, run[n].replicas) <= Total(streams, run[0].replicas)
  {
    if n > 0 {
      Descent(streams, run, n - 1);
      assert Total(streams, run[(n - 1) + 1].replicas) < Total(streams, run[n - 1].replicas);
    }
  }

  lemma InitialBound(streams: Streams, s: State)
    requires Init(streams, s)
    ensures Total(streams, s.replicas) == Bound(streams)
  {
    InitialTotal(streams, s.replicas);
  }

  lemma RunDecreases(streams: Streams, run: seq<State>, steps: seq<Step>, n: nat)
    requires |streams| > 0 && IsRun(streams, run, steps) && n < |steps|
    ensures Total(streams, run[n + 1].replicas) < Total(streams, run[n].replicas)
  {
    RunKeeps(streams, run, steps, n);
    StepDecreases(streams, run[n], steps[n]);
  }

  /** A replica that can do nothing by itself has been counted by the voter or is done for good. */
  lemma BlockedReplica(streams: Streams, s: State, i: nat)
    requires |s.replicas| == |streams| && i < |streams| && s.voter.Collecting?
    requires ReplicaOk(streams[i], s.replicas[i], s.votes, true)
    requires forall step: Step | step.replica == i :: !Enabled(streams, s, step)
    ensures Taken(s.replicas[i]) || s.votes == Blocks(streams[i])
  {
    var r := s.replicas[i];
    assert !Enabled(streams, s, ReadChar(i));
    assert !Enabled(streams, s, ReadEof(i));
    assert !Enabled(streams, s, Pad(i));
    assert !Enabled(streams, s, FinalSignal(i));
    assert !Enabled(streams, s, Resume(i));
    assert !Enabled(streams, s, TakeSignal(i, r.buffer));
  }

  lemma SendIsReady(streams: Streams, s: State)
    requires Inv(streams, s) && s.voter.Sending?
    ensures Enabled(streams, s, Send(s.voter.next))
  {
    var k := s.voter.next;
    assert ReplicaOk(streams[k], s.replicas[k], s.votes, Released(s, k));
  }

  /** The number of blocks of the replica that has the fewest. */
  function FewestBlocks(streams: Streams): nat
    requires |streams| > 0
  {
    var last := Blocks(streams[|streams| - 1]);
    if |streams| == 1 then last
    else
      var others := FewestBlocks(streams[..|streams| - 1]);
      if last < others then last else others
  }

  lemma {:induction false} FewestIsLeast(streams: Streams)
    requires |streams| > 0
    ensures forall i :: 0 <= i < |streams| ==> FewestBlocks(streams) <= Blocks(streams[i])
    ensures exists i :: 0 <= i < |streams| && FewestBlocks(streams) == Blocks(streams[i])
  {
    if |streams| > 1 {
      var n := |streams| - 1;
      FewestIsLeast(streams[..n]);
      var i :| 0 <= i < n && FewestBlocks(streams[..n]) == Blocks(streams[..n][i]);
      assert Blocks(streams[i]) == Blocks(streams[..n][i]);
      forall j | 0 <= j < |streams|
        ensures FewestBlocks(streams) <= Blocks(streams[j])
      {
        assert j < n ==> streams[j] == streams[..n][j];
      }
    }
  }

  lemma FewestIsPositive(streams: Streams)
    requires |streams| > 0
    ensures FewestBlocks(streams) > 0
  {
    FewestIsLeast(streams);
  }

  /** The first number from b on of which p holds, or last if there is none before. */
  function FirstOf(p: nat -> bool, b: nat, last: nat): nat
    requires b <= last
    decreases last - b
  {
    if b == last || p(b) then b else FirstOf(p, b + 1, last)
  }

  lemma {:induction false} FirstOfIs(p: nat -> bool, b: nat, last: nat, v: nat)
    requires b <= v <= last && (forall c: nat | c < v :: !p(c)) && (v == last || p(v))
    ensures FirstOf(p, b, last) == v
    decreases v - b
  {
    if b < v { FirstOfIs(p, b + 1, last, v); }
  }

  /** How many votes print something: up to the first on which all differ, or to the end of the shortest replica. */
  function Rounds(streams: Streams): nat
    requires |streams| > 0
  {
    FirstOf((b: nat) => AllDiffer(streams, b), 0, FewestBlocks(streams))
  }

  lemma RoundsAre(streams: Streams, v: nat)
    requires |streams| > 0 && v <= FewestBlocks(streams) && AgreedUpTo(streams, v)
    requires v == FewestBlocks(streams) || AllDiffer(streams, v)
    ensures Rounds(streams) == v
  {
    FirstOfIs((b: nat) => AllDiffer(streams, b), 0, FewestBlocks(streams), v);
  }

  /**
   * A run that cannot go on has held a vote on every block the shortest
   * replica has, unless all replicas differed on one: there the voter gave up.
   */
  lemma StuckMeansDone(streams: Streams, s: State)
    requires Inv(streams, s)
    requires forall step: Step :: !Enabled(streams, s, step)
    ensures s.votes == Rounds(streams)
    ensures s.voter.Exited? <==> s.votes < FewestBlocks(streams)
  {
    FewestIsLeast(streams);
    if s.voter.Exited? {
      ExitedEarly(streams, s);
    } else {
      if s.voter.Sending? {
        SendIsReady(streams, s);
      }
      AllTaken(s.replicas);
      var i :| 0 <= i < |s.replicas| && !Taken(s.replicas[i]);
      assert ReplicaOk(streams[i], s.replicas[i], s.votes, Released(s, i));
      BlockedReplica(streams, s, i);
    }
    RoundsAre(streams, s.votes);
  }

  lemma ExitedEarly(streams: Streams, s: State)
    requires Inv(streams, s) && s.voter.Exited?
    ensures s.votes < FewestBlocks(streams)
  {
    forall i | 0 <= i < |s.replicas|
      ensures Taken(s.replicas[i]) && ReplicaOk(streams[i], s.replicas[i], s.votes, true)
    {
      assert ReplicaOk(streams[i], s.replicas[i], s.votes, Released(s, i));
    }
    VotedAll(streams, s);
    FewestIsLeast(streams);
  }

  /**
   * Whatever the replicas emit, every schedule is finite, and all that are
   * complete print the same: what the votes chose up to the first block on
   * which all fingerprints differ, or else to the end of the shortest replica.
   * The voter gives up in the first case and in no other.
   */
  lemma EveryScheduleEndsAlike(streams: Streams, run: seq<State>, steps: seq<Step>)
    requires |streams| > 0 && IsRun(streams, run, steps)
    ensures |steps| <= Bound(streams)
    ensures (forall step: Step :: !Enabled(streams, run[|steps|], step)) ==>
              && run[|steps|].printed == Chosen(streams, Rounds(streams))
              && (run[|steps|].voter.Exited? <==> exists b: nat :: b < FewestBlocks(streams) && AllDiffer(streams, b))
  {
    RunsAreBounded(streams, run, steps, |steps|);
    RunKeeps(streams, run, steps, |steps|);
    if forall step: Step :: !Enabled(streams, run[|steps|], step) {
      StuckMeansDone(streams, run[|steps|]);
    }
  }

  /** The leading blocks of a text that prints faithfully are all of it exactly when none is missing. */
  lemma AllOfIt(text: seq<Byte>, n: nat)
    requires n > 0
    ensures Leading(text, n) == text <==> n >= Blocks(text)
  {
  }

  /**
   * Every schedule is finite, and when nothing more can happen the voter has
   * printed what the votes on the blocks that every replica got to chose.  If
   * each of them elected the text, that is the text up to there without zero
   * bytes.  A text without zero bytes is then printed whole if and only if no
   * replica emits fewer blocks.
   */
  lemma EverySchedulePrintsTheText(streams: Streams, text: seq<Byte>, run: seq<State>, steps: seq<Step>)
    requires Agree(streams, text) && IsRun(streams, run, steps)
    ensures |steps| <= Bound(streams)
    ensures (forall step: Step :: !Enabled(streams, run[|steps|], step)) ==>
              && run[|steps|].printed == Chosen(streams, FewestBlocks(streams))
              && ((forall b: nat | b < FewestBlocks(streams) :: ElectsText(streams, text, b)) ==>
                    && run[|steps|].printed == Strip(Leading(text, FewestBlocks(streams)))
                    && (NUL !in text ==>
                          (run[|steps|].printed == text <==>
                             forall i :: 0 <= i < |streams| ==> Blocks(streams[i]) >= Blocks(text))))
  {
    EveryScheduleEndsAlike(streams, run, steps);
    if forall step: Step :: !Enabled(streams, run[|steps|], step) {
      MajorityRounds(streams, text);
      if forall b: nat | b < FewestBlocks(streams) :: ElectsText(streams, text, b) {
        ElectedAll(streams, text);
        if NUL !in text { WholeText(streams, text); }
      }
    }
  }

  lemma MajorityRounds(streams: Streams, text: seq<Byte>)
    requires Agree(streams, text)
    ensures Rounds(streams) == FewestBlocks(streams)
  {
    forall b: nat
      ensures !AllDiffer(streams, b)
    {
      MajorityAgrees(streams, text, b);
    }
    RoundsAre(streams, FewestBlocks(streams));
  }

  lemma ElectedAll(streams: Streams, text: seq<Byte>)
    requires Agree(streams, text) && forall b: nat | b < FewestBlocks(streams) :: ElectsText(streams, text, b)
    ensures ChosenIsText(streams, text, FewestBlocks(streams))
  {
    ChosenIsTextIff(streams, text, FewestBlocks(streams));
  }

  /** The blocks of the text that every replica got to are all of it if and only if no replica emits fewer. */
  lemma WholeText(streams: Streams, text: seq<Byte>)
    requires |streams| > 0 && NUL !in text
    ensures Strip(Leading(text, FewestBlocks(streams))) == text
            <==> forall i :: 0 <= i < |streams| ==> Blocks(streams[i]) >= Blocks(text)
  {
    FewestIsLeast(streams);
    FewestIsPositive(streams);
    AllOfIt(text, FewestBlocks(streams));
    StripIsFaithful(Leading(text, FewestBlocks(streams)));
  }

  /** Replicas that all emit the same text have it printed, in every schedule, exactly if it has no zero byte. */
  lemma AgreedOutputIsPrinted(streams: Streams, text: seq<Byte>, run: seq<State>, steps: seq<Step>)
    requires |streams| >= 2 && (forall i :: 0 <= i < |streams| ==> streams[i] == text)
    requires IsRun(streams, run, steps) && forall step: Step :: !Enabled(streams, run[|steps|], step)
    ensures run[|steps|].printed == text <==> NUL !in text
  {
    AllAlike(streams, text);
    assert forall b: nat :: ElectsText(streams, text, b);
    EverySchedulePrintsTheText(streams, text, run, steps);
    FewestIsLeast(streams);
    AllOfIt(text, FewestBlocks(streams));
    StripIsFaithful(text);
  }

  lemma {:induction false} AllAlike(streams: Streams, text: seq<Byte>)
    requires forall i :: 0 <= i < |streams| ==> streams[i] == text
    ensures Freq(streams, text) == |streams|
  {
    if streams != [] {
      AllAlike(streams[..|streams| - 1], text);
    }
  }

  // ---------------------------------------------------------------------
  // What a colliding block does
  // ---------------------------------------------------------------------

  /** Fingerprints are blind to order, and so a lone first replica can overrule two that agree. */
  lemma MajorityCanLose()
    ensures var c, d := [1, 2] + Zeroes(BUFFER_LENGTH - 2), [2, 1] + Zeroes(BUFFER_LENGTH - 2);
            var blocks := [d, c, c];
            && 2 * Freq(blocks, c) > |blocks|
            && Strip(blocks[Winner(FingerprintsOf(blocks))]) == [2, 1] != Strip(c)
  {
    TwoBytes(1, 2, BUFFER_LENGTH - 2);
    TwoBytes(2, 1, BUFFER_LENGTH - 2);
    var c, d := [1, 2] + Zeroes(BUFFER_LENGTH - 2), [2, 1] + Zeroes(BUFFER_LENGTH - 2);
    assert c[0] != d[0];
    TwoOfThree(c, d);
    FirstAlikeIsUnique([d, c, c], c, 0, Winner(FingerprintsOf([d, c, c])));
  }

  lemma TwoBytes(x: Byte, y: Byte, n: nat)
    requires x != NUL && y != NUL
    ensures Fingerprint([x, y] + Zeroes(n)) == x + y + Fingerprint(Zeroes(n))
    ensures Strip([x, y] + Zeroes(n)) == [x, y]
  {
    FingerprintAppend([x, y], Zeroes(n));
    assert [x, y][..1] == [x];
    assert Fingerprint([x]) == x;
    StripText([x, y], n);
    StripIsFaithful([x, y]);
  }

  lemma TwoOfThree(c: seq<Byte>, d: seq<Byte>)
    requires c != d
    ensures 2 * Freq([d, c, c], c) > 3
    ensures FirstAlike([d, c, c], c, Winner(FingerprintsOf([d, c, c])))
  {
    var blocks := [d, c, c];
    assert blocks[..2] == [d, c] && [d, c][..1] == [d];
    assert Freq([d, c], c) == Freq([d], c) + 1;
    MajorityIsPrintedIff(blocks, c);
  }

  lemma {:induction false} FingerprintAppend(a: seq<Byte>, b: seq<Byte>)
    ensures Fingerprint(a + b) == Fingerprint(a) + Fingerprint(b)
  {
    if b == [] {
      assert a + b == a;
    } else {
      assert (a + b)[..|a + b| - 1] == a + b[..|b| - 1];
      FingerprintAppend(a, b[..|b| - 1]);
    }
  }
}
