/**
 The batch queue (pkg/queue/ultra_performance.go) between one producer and one consumer. Its fast paths use no
 compare-and-swap: a slot is published, or handed back, one atomic step before the position moves on. Every atomic
 step of BatchEnqueue and BatchDequeue is one step here; a run is any interleaving.
 */
module UltraQueue {
  import opened Division
  import opened QueueTypes

  datatype Producer =
    | Idle
    | LoadPos(batch: seq<MessageRef>, n: nat)
    | LoadSeq(batch: seq<MessageRef>, n: nat, pos: nat)
    | StoreData(batch: seq<MessageRef>, n: nat, pos: nat)
    | StoreSeq(batch: seq<MessageRef>, n: nat, pos: nat)
    | AddPos(batch: seq<MessageRef>, n: nat, pos: nat)
    | SlowLoad(batch: seq<MessageRef>, n: nat)
    | SlowSeq(batch: seq<MessageRef>, n: nat, pos: nat)
    | SlowCas(batch: seq<MessageRef>, n: nat, pos: nat)
    | SlowData(batch: seq<MessageRef>, n: nat, pos: nat)
    | SlowStore(batch: seq<MessageRef>, n: nat, pos: nat)

  datatype Consumer =
    | Resting
    | ReadPos(limit: nat, got: seq<MessageRef>)
    | ReadSeq(limit: nat, got: seq<MessageRef>, pos: nat)
    | ReadData(limit: nat, got: seq<MessageRef>, pos: nat)
    | WriteSeq(limit: nat, got: seq<MessageRef>, pos: nat, data: MessageRef)
    | MovePos(limit: nat, got: seq<MessageRef>, pos: nat, data: MessageRef)
    | SlowPos(limit: nat, got: seq<MessageRef>)
    | SlowRead(limit: nat, got: seq<MessageRef>, pos: nat)
    | SlowTake(limit: nat, got: seq<MessageRef>, pos: nat)
    | SlowGet(limit: nat, got: seq<MessageRef>, pos: nat)
    | SlowBack(limit: nat, got: seq<MessageRef>, pos: nat, data: MessageRef)

  predicate OnSlowPath(p: Producer) {
    p.SlowLoad? || p.SlowSeq? || p.SlowCas? || p.SlowData? || p.SlowStore?
  }

  predicate OnSlowLane(c: Consumer) {
    c.SlowPos? || c.SlowRead? || c.SlowTake? || c.SlowGet? || c.SlowBack?
  }

  /**
   Besides the ring: published, every message whose slot sequence was stored, in order; answered, the accepted
   prefixes of the finished BatchEnqueue calls joined up; results, the slices returned by the finished BatchDequeue
   calls joined up; taken, how many slots the consumer has handed back. No step reads these.
   */
  datatype State = State(
    enq: nat, deq: nat, slots: seq<Slot>, producer: Producer, consumer: Consumer,
    published: seq<MessageRef>, answered: seq<MessageRef>, results: seq<MessageRef>, taken: nat)

  datatype Action = CallBatchEnqueue(batch: seq<MessageRef>) | CallBatchDequeue(limit: nat) | Produce | Consume

  function Init(cap: nat): State {
    State(0, 0, seq(cap, i requires 0 <= i => Slot(i, NIL)), Idle, Resting, [], [], [], 0)
  }

  /** The loop head of BatchEnqueue with the first n messages accepted. */
  function NextMessage(s: State, batch: seq<MessageRef>, n: nat): State {
    if n < |batch| then s.(producer := LoadPos(batch, n)) else Answer(s, batch)
  }

  function Answer(s: State, accepted: seq<MessageRef>): State {
    s.(producer := Idle, answered := s.answered + accepted)
  }

  /** The loop head of BatchDequeue with got in hand. */
  function NextRead(s: State, limit: nat, got: seq<MessageRef>): State {
    if |got| < limit then s.(consumer := ReadPos(limit, got)) else Return(s, got)
  }

  function Return(s: State, got: seq<MessageRef>): State {
    s.(consumer := Resting, results := s.results + got)
  }

  function First(batch: seq<MessageRef>, n: nat): seq<MessageRef> {
    if n <= |batch| then batch[..n] else batch
  }

  function Publish(s: State, batch: seq<MessageRef>, n: nat, pos: nat): State
    requires |s.slots| > 0
  {
    var i := SlotOf(|s.slots|, pos);
    s.(slots := s.slots[i := s.slots[i].(sequence := pos + 1)], producer := AddPos(batch, n, pos),
       published := s.published + [s.slots[i].data])
  }

  function StepProducer(s: State): State
    requires |s.slots| > 0
  {
    match s.producer
    case Idle => s
    case LoadPos(batch, n) => s.(producer := LoadSeq(batch, n, s.enq))
    case LoadSeq(batch, n, pos) =>
      var sequence := s.slots[SlotOf(|s.slots|, pos)].sequence;
      if sequence == pos then s.(producer := StoreData(batch, n, pos))
      else if sequence < pos then Answer(s, First(batch, n))
      else s.(producer := SlowLoad(batch, n))
    case StoreData(batch, n, pos) =>
      var i := SlotOf(|s.slots|, pos);
      s.(slots := s.slots[i := s.slots[i].(data := if n < |batch| then batch[n] else NIL)], producer := StoreSeq(batch, n, pos))
    case StoreSeq(batch, n, pos) => Publish(s, batch, n, pos)
    case AddPos(batch, n, pos) => NextMessage(s.(enq := s.enq + 1), batch, n + 1)
    case SlowLoad(batch, n) => s.(producer := SlowSeq(batch, n, s.enq))
    case SlowSeq(batch, n, pos) =>
      var sequence := s.slots[SlotOf(|s.slots|, pos)].sequence;
      if sequence == pos then s.(producer := SlowCas(batch, n, pos))
      else if sequence < pos then Answer(s, First(batch, n))
      else s.(producer := SlowLoad(batch, n))
    case SlowCas(batch, n, pos) =>
      if s.enq == pos then s.(enq := pos + 1, producer := SlowData(batch, n, pos)) else s.(producer := SlowLoad(batch, n))
    case SlowData(batch, n, pos) =>
      var i := SlotOf(|s.slots|, pos);
      s.(slots := s.slots[i := s.slots[i].(data := if n < |batch| then batch[n] else NIL)], producer := SlowStore(batch, n, pos))
    case SlowStore(batch, n, pos) =>
      var i := SlotOf(|s.slots|, pos);
      NextMessage(s.(slots := s.slots[i := s.slots[i].(sequence := pos + 1)], published := s.published + [s.slots[i].data]), batch, n + 1)
  }

  function HandBack(s: State, limit: nat, got: seq<MessageRef>, pos: nat, data: MessageRef): State
    requires |s.slots| > 0
  {
    var i := SlotOf(|s.slots|, pos);
    s.(slots := s.slots[i := s.slots[i].(sequence := pos + |s.slots|)], consumer := MovePos(limit, got, pos, data),
       taken := s.taken + 1)
  }

  /** A nil message reads as an empty queue: the batch ends and the message is dropped. */
  function Got(s: State, limit: nat, got: seq<MessageRef>, data: MessageRef): State {
    if data == NIL then Return(s, got) else NextRead(s, limit, got + [data])
  }

  function StepConsumer(s: State): State
    requires |s.slots| > 0
  {
    match s.consumer
    case Resting => s
    case ReadPos(limit, got) => s.(consumer := ReadSeq(limit, got, s.deq))
    case ReadSeq(limit, got, pos) =>
      var sequence := s.slots[SlotOf(|s.slots|, pos)].sequence;
      if sequence == pos + 1 then s.(consumer := ReadData(limit, got, pos))
      else if sequence < pos + 1 then Return(s, got)
      else s.(consumer := SlowPos(limit, got))
    case ReadData(limit, got, pos) =>
      s.(consumer := WriteSeq(limit, got, pos, s.slots[SlotOf(|s.slots|, pos)].data))
    case WriteSeq(limit, got, pos, data) => HandBack(s, limit, got, pos, data)
    case MovePos(limit, got, pos, data) => Got(s.(deq := s.deq + 1), limit, got, data)
    case SlowPos(limit, got) => s.(consumer := SlowRead(limit, got, s.deq))
    case SlowRead(limit, got, pos) =>
      var sequence := s.slots[SlotOf(|s.slots|, pos)].sequence;
      if sequence == pos + 1 then s.(consumer := SlowTake(limit, got, pos))
      else if sequence < pos + 1 then Return(s, got)
      else s.(consumer := SlowPos(limit, got))
    case SlowTake(limit, got, pos) =>
      if s.deq == pos then s.(deq := pos + 1, consumer := SlowGet(limit, got, pos)) else s.(consumer := SlowPos(limit, got))
    case SlowGet(limit, got, pos) =>
      s.(consumer := SlowBack(limit, got, pos, s.slots[SlotOf(|s.slots|, pos)].data))
    case SlowBack(limit, got, pos, data) =>
      var i := SlotOf(|s.slots|, pos);
      Got(s.(slots := s.slots[i := s.slots[i].(sequence := pos + |s.slots|)], taken := s.taken + 1), limit, got, data)
  }

  function Apply(s: State, a: Action): (s': State)
    requires |s.slots| > 0
    ensures |s'.slots| == |s.slots|
  {
    match a
    case CallBatchEnqueue(batch) => if s.producer.Idle? then NextMessage(s, batch, 0) else s
    case CallBatchDequeue(limit) => if s.consumer.Resting? then NextRead(s, limit, []) else s
    case Produce => StepProducer(s)
    case Consume => StepConsumer(s)
  }

  function Run(cap: nat, actions: seq<Action>): (s: State)
    requires cap > 0
    ensures |s.slots| == cap
  {
    if actions == [] then Init(cap) else Apply(Run(cap, actions[..|actions| - 1]), actions[|actions| - 1])
  }

  function NonNil(xs: seq<MessageRef>): seq<MessageRef> {
    if xs == [] then []
    else NonNil(xs[..|xs| - 1]) + (if xs[|xs| - 1] == NIL then [] else [xs[|xs| - 1]])
  }

  // ---------------------------------------------------------------------------------------------
  // The invariant

  /** The slots hold the messages published and not handed back, and the others are free. */
  ghost predicate Ring(slots: seq<Slot>, published: seq<MessageRef>, taken: nat) {
    && 2 <= |slots|
    && taken <= |published| <= taken + |slots|
    && (forall p {:trigger SlotOf(|slots|, p)} :: taken <= p < |published| ==> slots[SlotOf(|slots|, p)] == Slot(p + 1, published[p]))
    && (forall p {:trigger SlotOf(|slots|, p)} :: |published| <= p < taken + |slots| ==> slots[SlotOf(|slots|, p)].sequence == p)
  }

  ghost predicate RingInv(s: State) {
    Ring(s.slots, s.published, s.taken)
  }

  lemma RingTakes(slots: seq<Slot>, published: seq<MessageRef>, taken: nat, i: nat)
    requires Ring(slots, published, taken) && taken < |published| && i == SlotOf(|slots|, taken)
    ensures Ring(slots[i := slots[i].(sequence := taken + |slots|)], published, taken + 1)
  {
    Apart(|slots|, taken);
  }

  lemma RingGets(slots: seq<Slot>, published: seq<MessageRef>, taken: nat, i: nat)
    requires Ring(slots, published, taken) && |published| < taken + |slots| && i == SlotOf(|slots|, |published|)
    ensures Ring(slots[i := slots[i].(sequence := |published| + 1)], published + [slots[i].data], taken)
  {
    Apart(|slots|, |published|);
  }

  lemma RingStores(slots: seq<Slot>, published: seq<MessageRef>, taken: nat, i: nat, m: MessageRef)
    requires Ring(slots, published, taken) && |published| < taken + |slots| && i == SlotOf(|slots|, |published|)
    ensures Ring(slots[i := slots[i].(data := m)], published, taken)
  {
    Apart(|slots|, |published|);
  }

  /** The messages of the batch in progress that are published already. */
  function InProgress(p: Producer): seq<MessageRef> {
    if p.Idle? || p.n > |p.batch| then []
    else if p.AddPos? && p.n < |p.batch| then p.batch[..p.n + 1]
    else p.batch[..p.n]
  }

  ghost predicate ProducerInv(s: State)
    requires |s.slots| > 0
  {
    var w := |s.published|;
    && s.published == s.answered + InProgress(s.producer)
    && (if s.producer.AddPos? then s.enq + 1 == w else s.enq == w)
    && match s.producer {
         case Idle => true
         case LoadPos(batch, n) => n < |batch|
         case LoadSeq(batch, n, pos) => n < |batch| && pos == w
         case StoreData(batch, n, pos) => n < |batch| && pos == w < s.taken + |s.slots|
         case StoreSeq(batch, n, pos) =>
           n < |batch| && pos == w < s.taken + |s.slots| && s.slots[SlotOf(|s.slots|, pos)].data == batch[n]
         case AddPos(batch, n, pos) => n < |batch|
         case _ => false
       }
  }

  /** What the consumer has in hand: the batch so far and, past the hand-back, the message just read. */
  function InHand(c: Consumer): seq<MessageRef> {
    if c.Resting? then []
    else if c.MovePos? && c.data != NIL then c.got + [c.data]
    else c.got
  }

  ghost predicate ConsumerInv(s: State) {
    && s.taken <= |s.published|
    && NonNil(s.published[..s.taken]) == s.results + InHand(s.consumer)
    && (if s.consumer.MovePos? then s.deq + 1 == s.taken else s.deq == s.taken)
    && match s.consumer {
         case Resting => true
         case ReadPos(_, _) => true
         case ReadSeq(_, _, pos) => pos == s.taken
         case ReadData(_, _, pos) => pos == s.taken < |s.published|
         case WriteSeq(_, _, pos, data) => pos == s.taken < |s.published| && data == s.published[pos]
         case MovePos(_, _, _, _) => true
         case _ => false
       }
  }

  ghost predicate Inv(s: State) {
    RingInv(s) && ProducerInv(s) && ConsumerInv(s)
  }

  lemma InitInv(cap: nat)
    requires 2 <= cap
    ensures Inv(Init(cap))
  {
    var s := Init(cap);
    forall p {:trigger SlotOf(cap, p)} | 0 <= p < cap ensures s.slots[SlotOf(cap, p)].sequence == p {
      Remainder(cap, p, 0, p);
    }
  }

  /** The messages in the ring: published and not handed back yet. */
  function Contents(s: State): seq<MessageRef>
    requires s.taken <= |s.published|
  {
    s.published[s.taken..]
  }

  /** The producer finds its slot free exactly when the ring is not full, and refuses exactly when it is full. */
  lemma ProducerSees(s: State)
    requires Inv(s) && s.producer.LoadSeq?
    ensures var sequence := s.slots[SlotOf(|s.slots|, s.producer.pos)].sequence;
            && (sequence == s.producer.pos <==> |Contents(s)| < |s.slots|)
            && (sequence < s.producer.pos <==> |Contents(s)| == |s.slots|)
  {
    Apart(|s.slots|, s.taken);
  }

  /** The consumer finds a message exactly when the ring is not empty. */
  lemma ConsumerSees(s: State)
    requires Inv(s) && s.consumer.ReadSeq?
    ensures var sequence := s.slots[SlotOf(|s.slots|, s.consumer.pos)].sequence;
            && (sequence == s.consumer.pos + 1 <==> Contents(s) != [])
            && (sequence < s.consumer.pos + 1 <==> Contents(s) == [])
  {
  }

  lemma LookInv(s: State)
    requires Inv(s) && s.producer.LoadSeq?
    ensures Inv(StepProducer(s))
  {
    ProducerSees(s);
    assert ConsumerInv(StepProducer(s));
  }

  lemma StoreDataInv(s: State)
    requires Inv(s) && s.producer.StoreData?
    ensures Inv(StepProducer(s))
  {
    var p := s.producer;
    RingStores(s.slots, s.published, s.taken, SlotOf(|s.slots|, p.pos), p.batch[p.n]);
    assert RingInv(StepProducer(s));
  }

  lemma ProducerStepInv(s: State)
    requires Inv(s)
    ensures Inv(StepProducer(s))
  {
    match s.producer {
      case LoadSeq(batch, n, pos) => LookInv(s);
      case StoreData(batch, n, pos) => StoreDataInv(s);
      case StoreSeq(batch, n, pos) => PublishInv(s);
      case AddPos(batch, n, pos) => assert batch[..n + 1] == batch || n + 1 < |batch|;
      case _ =>
    }
  }

  lemma PublishInv(s: State)
    requires Inv(s) && s.producer.StoreSeq?
    ensures Inv(Publish(s, s.producer.batch, s.producer.n, s.producer.pos))
  {
    var p := s.producer;
    var s' := Publish(s, p.batch, p.n, p.pos);
    RingGets(s.slots, s.published, s.taken, SlotOf(|s.slots|, p.pos));
    assert s'.published[..s.taken] == s.published[..s.taken];
    assert p.batch[..p.n + 1] == p.batch[..p.n] + [p.batch[p.n]];
  }

  lemma LookForInv(s: State)
    requires Inv(s) && s.consumer.ReadSeq?
    ensures Inv(StepConsumer(s))
  {
    ConsumerSees(s);
  }

  lemma MovePosInv(s: State)
    requires Inv(s) && s.consumer.MovePos?
    ensures Inv(Got(s.(deq := s.deq + 1), s.consumer.limit, s.consumer.got, s.consumer.data))
  {
    var s' := Got(s.(deq := s.deq + 1), s.consumer.limit, s.consumer.got, s.consumer.data);
    assert RingInv(s');
    assert ProducerInv(s');
    assert s'.results + InHand(s'.consumer) == s.results + InHand(s.consumer);
  }

  lemma ConsumerStepInv(s: State)
    requires Inv(s)
    ensures Inv(StepConsumer(s))
  {
    match s.consumer {
      case ReadSeq(limit, got, pos) => LookForInv(s);
      case WriteSeq(limit, got, pos, data) => HandBackInv(s, s.consumer);
      case MovePos(limit, got, pos, data) => MovePosInv(s);
      case _ =>
    }
  }

  lemma HandBackInv(s: State, c: Consumer)
    requires Inv(s) && s.consumer == c && c.WriteSeq?
    ensures Inv(HandBack(s, c.limit, c.got, c.pos, c.data))
  {
    var s' := HandBack(s, c.limit, c.got, c.pos, c.data);
    RingTakes(s.slots, s.published, s.taken, SlotOf(|s.slots|, c.pos));
    assert ProducerInv(s') by { Apart(|s.slots|, c.pos); }
    assert s.published[..s.taken + 1][..s.taken] == s.published[..s.taken];
    assert ConsumerInv(s');
  }

  lemma EnqueueCallInv(s: State, batch: seq<MessageRef>)
    requires Inv(s) && s.producer.Idle?
    ensures Inv(NextMessage(s, batch, 0))
  {
  }

  lemma DequeueCallInv(s: State, limit: nat)
    requires Inv(s) && s.consumer.Resting?
    ensures Inv(NextRead(s, limit, []))
  {
  }

  lemma ApplyInv(s: State, a: Action)
    requires Inv(s)
    ensures Inv(Apply(s, a))
  {
    match a {
      case Produce => ProducerStepInv(s);
      case Consume => ConsumerStepInv(s);
      case CallBatchEnqueue(batch) => if s.producer.Idle? { EnqueueCallInv(s, batch); }
      case CallBatchDequeue(limit) => if s.consumer.Resting? { DequeueCallInv(s, limit); }
    }
  }

  /** The invariant holds in every state of every interleaving. */
  lemma {:induction false} RunInv(cap: nat, actions: seq<Action>)
    requires 2 <= cap
    ensures Inv(Run(cap, actions))
  {
    if actions == [] {
      InitInv(cap);
    } else {
      var k := |actions| - 1;
      RunInv(cap, actions[..k]);
      ApplyInv(Run(cap, actions[..k]), actions[k]);
    }
  }

  // ---------------------------------------------------------------------------------------------
  // Main results

  lemma {:induction false} NonNilPrefix(xs: seq<MessageRef>, k: nat)
    requires k <= |xs|
    ensures NonNil(xs[..k]) <= NonNil(xs)
  {
    if k < |xs| {
      NonNilPrefix(xs[..|xs| - 1], k);
      assert xs[..|xs| - 1][..k] == xs[..k];
    } else {
      assert xs[..k] == xs;
    }
  }

  lemma {:induction false} NonNilConcat(xs: seq<MessageRef>, ys: seq<MessageRef>)
    ensures NonNil(xs + ys) == NonNil(xs) + NonNil(ys)
  {
    if ys == [] {
      assert xs + ys == xs;
    } else {
      var k := |ys| - 1;
      NonNilConcat(xs, ys[..k]);
      assert (xs + ys)[..|xs| + k] == xs + ys[..k];
    }
  }

  lemma {:induction false} NothingToDrop(xs: seq<MessageRef>)
    ensures NonNil(xs) == xs <==> NIL !in xs
    ensures |NonNil(xs)| <= |xs|
  {
    if xs != [] {
      var k := |xs| - 1;
      NothingToDrop(xs[..k]);
      assert xs == xs[..k] + [xs[k]];
    }
  }

  lemma Delivered(s: State)
    requires Inv(s)
    ensures s.results + InHand(s.consumer) <= NonNil(s.published)
    ensures NIL !in s.published ==> s.results <= s.published
  {
    NonNilPrefix(s.published, s.taken);
    NothingToDrop(s.published);
  }

  lemma OnFastPaths(s: State)
    requires Inv(s)
    ensures !OnSlowPath(s.producer) && !OnSlowLane(s.consumer)
  {
  }

  /**
   In every interleaving the slow paths are never entered, the messages returned are, in order, a prefix of the
   non-nil messages accepted, the ring never holds more than its capacity, and what has been accepted and answered
   lags what is published by at most the batch in progress.
   */
  lemma PrefixDelivery(cap: nat, actions: seq<Action>)
    requires 2 <= cap
    ensures var s := Run(cap, actions);
            && !OnSlowPath(s.producer) && !OnSlowLane(s.consumer)
            && s.published == s.answered + InProgress(s.producer)
            && s.results + InHand(s.consumer) <= NonNil(s.published)
            && (NIL !in s.published ==> s.results <= s.published)
            && s.taken <= |s.published| && |Contents(s)| <= cap
  {
    RunInv(cap, actions);
    Delivered(Run(cap, actions));
    OnFastPaths(Run(cap, actions));
  }

  lemma AtRest(s: State)
    requires Inv(s) && s.producer.Idle? && s.consumer.Resting?
    ensures NonNil(s.answered) == s.results + NonNil(Contents(s))
    ensures s.enq - s.deq == |Contents(s)|
  {
    assert s.published == s.answered + [] == s.answered;
    assert s.results + [] == s.results;
    assert s.published == s.published[..s.taken] + Contents(s);
    NonNilConcat(s.published[..s.taken], Contents(s));
  }

  /** With both sides at rest, what was answered is what was returned followed by what is in the ring, nil messages aside. */
  lemma Drained(cap: nat, actions: seq<Action>)
    requires 2 <= cap
    requires Run(cap, actions).producer.Idle? && Run(cap, actions).consumer.Resting?
    ensures var s := Run(cap, actions);
            && s.taken <= |s.published|
            && NonNil(s.answered) == s.results + NonNil(Contents(s))
            && s.enq - s.deq == |Contents(s)|
  {
    RunInv(cap, actions);
    AtRest(Run(cap, actions));
  }

  // ---------------------------------------------------------------------------------------------
  // A ring of one slot

  ghost predicate Reachable(cap: nat, s: State) {
    0 < cap == |s.slots| && exists actions :: Run(cap, actions) == s
  }

  lemma Then(cap: nat, s: State, a: Action, s': State)
    requires Reachable(cap, s) && s' == Apply(s, a)
    ensures Reachable(cap, s')
  {
    var actions :| Run(cap, actions) == s;
    assert Run(cap, actions + [a]) == s';
  }

  /** The state before the n-th message of a batch is stored to the one slot. */
  function Putting(s: State, batch: seq<MessageRef>, n: nat): State {
    s.(producer := LoadPos(batch, n))
  }

  /** The sequence of a stored message is the next position, so the slot looks free. */
  function Put(s: State, m: MessageRef): State {
    s.(enq := s.enq + 1, slots := [Slot(s.enq + 1, m)], published := s.published + [m])
  }

  lemma FindFree(s: State, batch: seq<MessageRef>, n: nat)
    requires |s.slots| == 1 && s.slots[0].sequence == s.enq && n < |batch| && Reachable(1, Putting(s, batch, n))
    ensures Reachable(1, s.(producer := StoreData(batch, n, s.enq)))
  {
    Then(1, Putting(s, batch, n), Produce, s.(producer := LoadSeq(batch, n, s.enq)));
    Then(1, s.(producer := LoadSeq(batch, n, s.enq)), Produce, s.(producer := StoreData(batch, n, s.enq)));
  }

  /** With one slot, a message is stored over the one before. */
  lemma PutOne(s: State, batch: seq<MessageRef>, n: nat)
    requires |s.slots| == 1 && s.slots[0].sequence == s.enq && n < |batch| && Reachable(1, Putting(s, batch, n))
    ensures Reachable(1, NextMessage(Put(s, batch[n]), batch, n + 1))
  {
    var e := s.enq;
    FindFree(s, batch, n);
    var s1 := s.(slots := [Slot(e, batch[n])], producer := StoreSeq(batch, n, e));
    Then(1, s.(producer := StoreData(batch, n, e)), Produce, s1);
    var s2 := s.(slots := [Slot(e + 1, batch[n])], producer := AddPos(batch, n, e), published := s.published + [batch[n]]);
    Then(1, s1, Produce, s2);
    Then(1, s2, Produce, NextMessage(Put(s, batch[n]), batch, n + 1));
  }

  lemma PutTwo(a: MessageRef, b: MessageRef)
    ensures Reachable(1, State(2, 0, [Slot(2, b)], Idle, Resting, [a, b], [a, b], [], 0))
  {
    var s0 := State(0, 0, [Slot(0, NIL)], Idle, Resting, [], [], [], 0);
    assert Run(1, []) == s0;
    Then(1, s0, CallBatchEnqueue([a, b]), Putting(s0, [a, b], 0));
    PutOne(s0, [a, b], 0);
    var s1 := State(1, 0, [Slot(1, a)], Idle, Resting, [a], [], [], 0);
    assert Put(s0, a) == s1;
    PutOne(s1, [a, b], 1);
    assert Put(s1, b).published == [a, b];
  }

  /** The consumer is in its slow loop and finds the slot ahead of it, and the producer will only move it further ahead. */
  ghost predicate Stuck(s: State) {
    && |s.slots| == 1 && s.deq + 1 < s.slots[0].sequence && s.deq < s.enq
    && (s.consumer.SlowPos? || (s.consumer.SlowRead? && s.consumer.pos == s.deq))
    && (match s.producer
        case Idle => true
        case LoadPos(_, _) => true
        case SlowLoad(_, _) => true
        case _ => s.deq < s.producer.pos)
  }

  lemma StuckStays(s: State, a: Action)
    requires Stuck(s)
    ensures Stuck(Apply(s, a)) && Apply(s, a).results == s.results
  {
    match a {
      case Produce => ProducerLeavesStuck(s);
      case Consume =>
      case CallBatchEnqueue(_) =>
      case CallBatchDequeue(_) =>
    }
  }

  lemma ProducerLeavesStuck(s: State)
    requires Stuck(s)
    ensures Stuck(StepProducer(s)) && StepProducer(s).results == s.results
  {
  }

  /** With one slot two messages are accepted, the second over the first, and the consumer is stuck. */
  lemma OneSlotIsNotEnough(a: MessageRef, b: MessageRef) returns (actions: seq<Action>)
    ensures var s := Run(1, actions);
            s.answered == [a, b] && s.slots == [Slot(2, b)] && s.results == [] && OnSlowLane(s.consumer) && Stuck(s)
  {
    PutTwo(a, b);
    var s2 := State(2, 0, [Slot(2, b)], Idle, Resting, [a, b], [a, b], [], 0);
    Then(1, s2, CallBatchDequeue(1), s2.(consumer := ReadPos(1, [])));
    Then(1, s2.(consumer := ReadPos(1, [])), Consume, s2.(consumer := ReadSeq(1, [], 0)));
    var s := s2.(consumer := SlowPos(1, []));
    Then(1, s2.(consumer := ReadSeq(1, [], 0)), Consume, s);
    actions :| Run(1, actions) == s;
  }

  /** Whatever happens next, a stuck consumer goes round its slow loop and its call never returns. */
  lemma {:induction false} StuckForever(before: seq<Action>, after: seq<Action>)
    requires Stuck(Run(1, before))
    ensures var s := Run(1, before + after); Stuck(s) && OnSlowLane(s.consumer) && s.results == Run(1, before).results
  {
    if after == [] {
      assert before + after == before;
    } else {
      var rest, a := after[..|after| - 1], after[|after| - 1];
      StuckForever(before, rest);
      assert before + after == before + rest + [a];
      RunLast(1, before + rest, a, before + after);
      StuckStays(Run(1, before + rest), a);
    }
  }

  lemma RunLast(cap: nat, before: seq<Action>, a: Action, all: seq<Action>)
    requires 0 < cap && all == before + [a]
    ensures Run(cap, all) == Apply(Run(cap, before), a)
  {
    assert all[..|before|] == before;
  }

  predicate FastOnly(cap: nat, actions: seq<Action>)
    requires 0 < cap
  {
    !OnSlowPath(Run(cap, actions).producer) && !OnSlowLane(Run(cap, actions).consumer)
  }

  /** No run leaves the fast paths exactly if there are at least two slots. */
  lemma FastExactly(cap: nat)
    requires 0 < cap
    ensures (forall actions :: FastOnly(cap, actions)) <==> 2 <= cap
  {
    if cap == 1 {
      var actions := OneSlotIsNotEnough(1, 2);
      assert !FastOnly(1, actions);
    } else {
      forall actions ensures FastOnly(cap, actions) {
        RunInv(cap, actions);
        OnFastPaths(Run(cap, actions));
      }
    }
  }
}
