/**
 The parallel batch writer (pkg/processor/parallel_batch_writer.go): writers that hash a message to a shard and spill
 to the next one, one worker per shard that receives, buffers, flushes with retries and stops. A run is any
 interleaving of their atomic steps with any outcomes of the storage calls; a storage call stores its whole batch or
 nothing.
 */
module ParallelWriter {

  const TWO_TO_THE_32: nat := 0x1_0000_0000

  /** A topic is the list of its code points. */
  datatype Message = Message(topic: seq<nat>, id: nat)

  datatype Config = Config(shards: nat, batchSize: nat, maxRetries: int)

  ghost predicate ValidConfig(c: Config) {
    0 < c.shards < TWO_TO_THE_32 && 0 < c.batchSize
  }

  /** The capacity of a shard's channel. */
  function ChannelSize(c: Config): nat {
    2 * c.batchSize
  }

  // ---------------------------------------------------------------------------------------------
  // The shard of a topic

  /** The topic read as digits base 31, on 32 bits. */
  function HashOf(topic: seq<nat>): (h: nat)
    ensures h < TWO_TO_THE_32
  {
    if topic == [] then 0
    else (HashOf(topic[..|topic| - 1]) * 31 + topic[|topic| - 1]) % TWO_TO_THE_32
  }

  function ShardOf(c: Config, m: Message): (i: nat)
    requires 0 < c.shards
    ensures i < c.shards
  {
    HashOf(m.topic) % c.shards
  }

  function NextShard(c: Config, i: nat): (j: nat)
    requires 0 < c.shards
    ensures j < c.shards
  {
    (i + 1) % c.shards
  }

  method GetShardID(c: Config, m: Message) returns (i: nat)
    requires 0 < c.shards
    ensures i == ShardOf(c, m)
  {
    var hash: nat := 0;
    for k := 0 to |m.topic|
      invariant hash == HashOf(m.topic[..k])
    {
      hash := (hash * 31 + m.topic[k]) % TWO_TO_THE_32;
      assert m.topic[..k + 1][..k] == m.topic[..k];
    }
    assert m.topic[..|m.topic|] == m.topic;
    return hash % c.shards;
  }

  // ---------------------------------------------------------------------------------------------
  // The machine

  datatype Worker = Selecting | Flushing(attempt: nat, last: bool) | Exited

  /** A shard; received, all messages ever sent to its channel, is history that no step reads. */
  datatype Shard = Shard(
    chan: seq<Message>, buffer: seq<Message>, worker: Worker, stored: seq<seq<Message>>, received: seq<Message>)

  datatype Writer = Idle | Trying(msg: Message) | TryingNext(msg: Message)

  /** accepted and spilled are history: the messages whose Write succeeded, in order, and whether any took the next shard. */
  datatype State = State(
    shards: seq<Shard>, writers: seq<Writer>, running: bool, cancelled: bool, errors: nat,
    accepted: seq<Message>, refused: seq<Message>, spilled: bool)

  datatype Action =
    | CallWrite(w: nat, msg: Message)
    | Send(w: nat)
    | Receive(i: nat)
    | Tick(i: nat)
    | SeeStop(i: nat)
    | SeeCancel(i: nat)
    | Attempt(i: nat, ok: bool)
    | Stop
    | Cancel

  function Init(c: Config, writers: nat): State {
    State(seq(c.shards, _ => Shard([], [], Selecting, [], [])), seq(writers, _ => Idle), true, false, 0, [], [], false)
  }

  function SetShard(s: State, i: nat, shard: Shard): State
    requires i < |s.shards|
  {
    s.(shards := s.shards[i := shard])
  }

  function SetWriter(s: State, w: nat, writer: Writer): State
    requires w < |s.writers|
  {
    s.(writers := s.writers[w := writer])
  }

  predicate Room(c: Config, s: State, i: nat)
    requires i < |s.shards|
  {
    |s.shards[i].chan| < ChannelSize(c)
  }

  /** A successful send: the message is in the channel of shard i and the Write returns nil. */
  function Accept(s: State, w: nat, i: nat, m: Message, spilled: bool): State
    requires i < |s.shards| && w < |s.writers|
  {
    var shard := s.shards[i];
    SetWriter(SetShard(s, i, shard.(chan := shard.chan + [m], received := shard.received + [m])), w, Idle)
    .(accepted := s.accepted + [m], spilled := s.spilled || spilled)
  }

  function StepWriter(c: Config, s: State, w: nat): State
    requires 0 < c.shards == |s.shards| && w < |s.writers|
  {
    match s.writers[w]
    case Idle => s
    case Trying(m) =>
      var i := ShardOf(c, m);
      if Room(c, s, i) then Accept(s, w, i, m, false) else SetWriter(s, w, TryingNext(m))
    case TryingNext(m) =>
      var j := NextShard(c, ShardOf(c, m));
      if Room(c, s, j) then Accept(s, w, j, m, true)
      else SetWriter(s, w, Idle).(refused := s.refused + [m])
  }

  function Resume(last: bool): Worker {
    if last then Exited else Selecting
  }

  /** flushShard is entered; with a negative retry bound its loop does not run once and the batch counts as written. */
  function EnterFlush(c: Config, shard: Shard, last: bool): Shard {
    if c.maxRetries < 0 then shard.(buffer := [], worker := Resume(last))
    else shard.(worker := Flushing(0, last))
  }

  function ReceiveOne(c: Config, shard: Shard): Shard
    requires shard.chan != []
  {
    var filled := shard.(chan := shard.chan[1..], buffer := shard.buffer + [shard.chan[0]]);
    if |filled.buffer| >= c.batchSize then EnterFlush(c, filled, false) else filled
  }

  function FlushIfAny(c: Config, shard: Shard, last: bool): Shard {
    if |shard.buffer| > 0 then EnterFlush(c, shard, last) else shard.(worker := Resume(last))
  }

  /** One StoreBatch call of a flush. */
  function AttemptOnce(c: Config, shard: Shard, ok: bool): Shard
    requires shard.worker.Flushing?
  {
    var Flushing(attempt, last) := shard.worker;
    if ok then shard.(stored := shard.stored + [shard.buffer], buffer := [], worker := Resume(last))
    else if attempt < c.maxRetries then shard.(worker := Flushing(attempt + 1, last))
    else shard.(worker := Resume(last))
  }

  predicate OfWorker(a: Action) {
    a.Receive? || a.Tick? || a.SeeStop? || a.SeeCancel? || a.Attempt?
  }

  function StepShard(c: Config, s: State, a: Action): Shard
    requires OfWorker(a) && a.i < |s.shards|
  {
    var shard := s.shards[a.i];
    match a
    case Receive(_) => if shard.worker.Selecting? && shard.chan != [] then ReceiveOne(c, shard) else shard
    case Tick(_) => if shard.worker.Selecting? then FlushIfAny(c, shard, false) else shard
    case SeeStop(_) => if shard.worker.Selecting? && !s.running then FlushIfAny(c, shard, true) else shard
    case SeeCancel(_) => if shard.worker.Selecting? && s.cancelled then shard.(worker := Exited) else shard
    case Attempt(_, ok) => if shard.worker.Flushing? then AttemptOnce(c, shard, ok) else shard
  }

  /** A flush that used up its attempts counts one error. */
  function GivesUp(c: Config, s: State, a: Action): bool {
    a.Attempt? && a.i < |s.shards| && !a.ok && s.shards[a.i].worker.Flushing? && s.shards[a.i].worker.attempt >= c.maxRetries
  }

  function Apply(c: Config, s: State, a: Action): (s': State)
    requires 0 < c.shards == |s.shards|
    ensures |s'.shards| == |s.shards| && |s'.writers| == |s.writers|
  {
    match a
    case CallWrite(w, m) =>
      if w < |s.writers| && s.writers[w].Idle? then
        if s.running then SetWriter(s, w, Trying(m)) else s.(refused := s.refused + [m])
      else s
    case Send(w) => if w < |s.writers| then StepWriter(c, s, w) else s
    case Stop => s.(running := false)
    case Cancel => s.(cancelled := true)
    case _ =>
      if a.i < |s.shards|
      then SetShard(s, a.i, StepShard(c, s, a)).(errors := s.errors + (if GivesUp(c, s, a) then 1 else 0))
      else s
  }

  function Run(c: Config, writers: nat, actions: seq<Action>): (s: State)
    requires 0 < c.shards
    ensures |s.shards| == c.shards && |s.writers| == writers
  {
    if actions == [] then Init(c, writers)
    else Apply(c, Run(c, writers, actions[..|actions| - 1]), actions[|actions| - 1])
  }

  // ---------------------------------------------------------------------------------------------
  // Per shard: nothing is lost, doubled or reordered

  function Flat(batches: seq<seq<Message>>): seq<Message> {
    if batches == [] then [] else Flat(batches[..|batches| - 1]) + batches[|batches| - 1]
  }

  /** What was stored, what is buffered and what is in the channel, in this order, is what was received. */
  ghost predicate ShardInv(c: Config, shard: Shard) {
    && Flat(shard.stored) + shard.buffer + shard.chan == shard.received
    && |shard.chan| <= ChannelSize(c)
    && (shard.worker.Flushing? ==> shard.buffer != [] && shard.worker.attempt <= c.maxRetries)
    && (forall b :: 0 <= b < |shard.stored| ==> shard.stored[b] != [])
  }

  lemma FlatLast(batches: seq<seq<Message>>, b: seq<Message>)
    ensures Flat(batches + [b]) == Flat(batches) + b
  {
    assert (batches + [b])[..|batches|] == batches;
  }

  lemma AttemptInv(c: Config, shard: Shard, ok: bool)
    requires 0 <= c.maxRetries && ShardInv(c, shard) && shard.worker.Flushing?
    ensures ShardInv(c, AttemptOnce(c, shard, ok))
  {
    if ok {
      FlatLast(shard.stored, shard.buffer);
      assert Flat(shard.stored) + shard.buffer + [] + shard.chan == shard.received;
    }
  }

  lemma ReceiveInv(c: Config, shard: Shard)
    requires 0 <= c.maxRetries && ShardInv(c, shard) && shard.worker.Selecting? && shard.chan != []
    ensures ShardInv(c, ReceiveOne(c, shard)) && ReceiveOne(c, shard).received == shard.received
  {
    assert shard.chan == [shard.chan[0]] + shard.chan[1..];
    assert Flat(shard.stored) + (shard.buffer + [shard.chan[0]]) + shard.chan[1..] == shard.received;
  }

  lemma StepShardInv(c: Config, s: State, a: Action)
    requires OfWorker(a) && a.i < |s.shards|
    requires 0 <= c.maxRetries && ShardInv(c, s.shards[a.i])
    ensures ShardInv(c, StepShard(c, s, a)) && StepShard(c, s, a).received == s.shards[a.i].received
  {
    var shard := s.shards[a.i];
    if a.Attempt? {
      if shard.worker.Flushing? { AttemptInv(c, shard, a.ok); }
    } else if a.Receive? {
      if shard.worker.Selecting? && shard.chan != [] { ReceiveInv(c, shard); }
    }
  }

  // ---------------------------------------------------------------------------------------------
  // Across shards

  /** The shard of the message's topic or, once messages have spilled, the next one. */
  ghost predicate Home(c: Config, i: nat, m: Message, spilled: bool)
    requires 0 < c.shards
  {
    i == ShardOf(c, m) || (spilled && i == NextShard(c, ShardOf(c, m)))
  }

  /** How often m was received, over all shards. */
  function ReceivedCount(shards: seq<Shard>, m: Message): nat {
    if shards == [] then 0
    else ReceivedCount(shards[..|shards| - 1], m) + multiset(shards[|shards| - 1].received)[m]
  }

  lemma {:induction false} ReceivedUpdate(shards: seq<Shard>, i: nat, shard: Shard, m: Message)
    requires i < |shards|
    ensures ReceivedCount(shards[i := shard], m) + multiset(shards[i].received)[m]
            == ReceivedCount(shards, m) + multiset(shard.received)[m]
  {
    var k := |shards| - 1;
    if i < k {
      ReceivedUpdate(shards[..k], i, shard, m);
      assert shards[i := shard][..k] == shards[..k][i := shard];
    } else {
      assert shards[i := shard][..k] == shards[..k];
    }
  }

  lemma {:induction false} NothingReceived(shards: seq<Shard>, m: Message)
    requires forall i :: 0 <= i < |shards| ==> shards[i].received == []
    ensures ReceivedCount(shards, m) == 0
  {
    if shards != [] { NothingReceived(shards[..|shards| - 1], m); }
  }

  function OfTopic(ms: seq<Message>, topic: seq<nat>): seq<Message> {
    if ms == [] then []
    else OfTopic(ms[..|ms| - 1], topic) + (if ms[|ms| - 1].topic == topic then [ms[|ms| - 1]] else [])
  }

  lemma {:induction false} OfTopicConcat(a: seq<Message>, b: seq<Message>, topic: seq<nat>)
    ensures OfTopic(a + b, topic) == OfTopic(a, topic) + OfTopic(b, topic)
  {
    if b == [] {
      assert a + b == a;
    } else {
      var k := |b| - 1;
      var last := if b[k].topic == topic then [b[k]] else [];
      OfTopicConcat(a, b[..k], topic);
      assert (a + b)[..|a| + k] == a + b[..k];
      assert OfTopic(a + b, topic) == OfTopic(a, topic) + OfTopic(b[..k], topic) + last;
      assert OfTopic(b, topic) == OfTopic(b[..k], topic) + last;
    }
  }

  /** As long as nothing spilled, a topic's home shard has received its accepted messages in order. */
  ghost predicate TopicOrder(c: Config, s: State, topic: seq<nat>)
    requires 0 < c.shards == |s.shards|
  {
    !s.spilled ==> OfTopic(s.accepted, topic) == OfTopic(s.shards[HashOf(topic) % c.shards].received, topic)
  }

  ghost predicate Inv(c: Config, s: State) {
    && 0 < c.shards == |s.shards|
    && (forall i :: 0 <= i < |s.shards| ==> ShardInv(c, s.shards[i]))
    && (forall i, k :: 0 <= i < |s.shards| && 0 <= k < |s.shards[i].received| ==> Home(c, i, s.shards[i].received[k], s.spilled))
  }

  lemma AcceptInv(c: Config, s: State, w: nat, i: nat, m: Message, spilled: bool)
    requires Inv(c, s) && w < |s.writers| && i < |s.shards| && Room(c, s, i) && Home(c, i, m, spilled)
    ensures Inv(c, Accept(s, w, i, m, spilled))
  {
  }

  lemma SendInv(c: Config, s: State, w: nat)
    requires Inv(c, s) && w < |s.writers|
    ensures Inv(c, StepWriter(c, s, w))
  {
    if !s.writers[w].Idle? {
      var m := s.writers[w].msg;
      var i := ShardOf(c, m);
      if s.writers[w].Trying? {
        if Room(c, s, i) { AcceptInv(c, s, w, i, m, false); }
      } else {
        if Room(c, s, NextShard(c, i)) { AcceptInv(c, s, w, NextShard(c, i), m, true); }
      }
    }
  }

  lemma WorkerInv(c: Config, s: State, a: Action)
    requires Inv(c, s) && 0 <= c.maxRetries && OfWorker(a) && a.i < |s.shards|
    ensures Inv(c, SetShard(s, a.i, StepShard(c, s, a)))
  {
    StepShardInv(c, s, a);
  }

  /** A worker's action changes its own shard and nothing that was accepted; the actions besides that and Send change no shard. */
  lemma ApplyShards(c: Config, s: State, a: Action)
    requires 0 < c.shards == |s.shards| && !a.Send?
    ensures var s' := Apply(c, s, a);
            && s'.shards == (if OfWorker(a) && a.i < |s.shards| then s.shards[a.i := StepShard(c, s, a)] else s.shards)
            && s'.accepted == s.accepted && s'.spilled == s.spilled
  {
  }

  lemma ApplyInv(c: Config, s: State, a: Action)
    requires Inv(c, s) && 0 <= c.maxRetries
    ensures Inv(c, Apply(c, s, a))
  {
    if a.Send? {
      if a.w < |s.writers| { SendInv(c, s, a.w); }
    } else {
      ApplyShards(c, s, a);
      if OfWorker(a) && a.i < |s.shards| { WorkerInv(c, s, a); }
    }
  }

  lemma {:induction false} RunInv(c: Config, writers: nat, actions: seq<Action>)
    requires ValidConfig(c) && 0 <= c.maxRetries
    ensures Inv(c, Run(c, writers, actions))
  {
    if actions != [] {
      var k := |actions| - 1;
      RunInv(c, writers, actions[..k]);
      ApplyInv(c, Run(c, writers, actions[..k]), actions[k]);
    }
  }

  lemma AcceptCounts(s: State, w: nat, i: nat, m: Message, spilled: bool, x: Message)
    requires w < |s.writers| && i < |s.shards| && ReceivedCount(s.shards, x) == multiset(s.accepted)[x]
    ensures var s' := Accept(s, w, i, m, spilled); ReceivedCount(s'.shards, x) == multiset(s'.accepted)[x]
  {
    var s' := Accept(s, w, i, m, spilled);
    ReceivedUpdate(s.shards, i, s'.shards[i], x);
  }

  lemma SendCounts(c: Config, s: State, w: nat, x: Message)
    requires 0 < c.shards == |s.shards| && w < |s.writers| && ReceivedCount(s.shards, x) == multiset(s.accepted)[x]
    ensures var s' := StepWriter(c, s, w); ReceivedCount(s'.shards, x) == multiset(s'.accepted)[x]
  {
    if !s.writers[w].Idle? {
      var m := s.writers[w].msg;
      var i := ShardOf(c, m);
      if s.writers[w].Trying? {
        if Room(c, s, i) { AcceptCounts(s, w, i, m, false, x); }
      } else {
        if Room(c, s, NextShard(c, i)) { AcceptCounts(s, w, NextShard(c, i), m, true, x); }
      }
    }
  }

  lemma WorkerCounts(c: Config, s: State, a: Action, x: Message)
    requires OfWorker(a) && a.i < |s.shards| && 0 <= c.maxRetries && ShardInv(c, s.shards[a.i])
    ensures ReceivedCount(s.shards[a.i := StepShard(c, s, a)], x) == ReceivedCount(s.shards, x)
  {
    StepShardInv(c, s, a);
    ReceivedUpdate(s.shards, a.i, StepShard(c, s, a), x);
  }

  lemma StepCounts(c: Config, s: State, a: Action, x: Message)
    requires Inv(c, s) && 0 <= c.maxRetries && ReceivedCount(s.shards, x) == multiset(s.accepted)[x]
    ensures var s' := Apply(c, s, a); ReceivedCount(s'.shards, x) == multiset(s'.accepted)[x]
  {
    if a.Send? {
      if a.w < |s.writers| { SendCounts(c, s, a.w, x); }
    } else {
      ApplyShards(c, s, a);
      if OfWorker(a) && a.i < |s.shards| { WorkerCounts(c, s, a, x); }
    }
  }

  lemma {:induction false} RunCounts(c: Config, writers: nat, actions: seq<Action>, x: Message)
    requires ValidConfig(c) && 0 <= c.maxRetries
    ensures var s := Run(c, writers, actions); ReceivedCount(s.shards, x) == multiset(s.accepted)[x]
  {
    if actions == [] {
      NothingReceived(Init(c, writers).shards, x);
    } else {
      var k := |actions| - 1;
      RunCounts(c, writers, actions[..k], x);
      RunInv(c, writers, actions[..k]);
      StepCounts(c, Run(c, writers, actions[..k]), actions[k], x);
    }
  }

  lemma AcceptOrder(c: Config, s: State, w: nat, m: Message, topic: seq<nat>)
    requires 0 < c.shards == |s.shards| && w < |s.writers| && TopicOrder(c, s, topic)
    ensures TopicOrder(c, Accept(s, w, ShardOf(c, m), m, false), topic)
  {
  }

  lemma StepOrder(c: Config, s: State, a: Action, topic: seq<nat>)
    requires Inv(c, s) && 0 <= c.maxRetries && TopicOrder(c, s, topic)
    ensures TopicOrder(c, Apply(c, s, a), topic)
  {
    if a.Send? {
      if a.w < |s.writers| && s.writers[a.w].Trying? && Room(c, s, ShardOf(c, s.writers[a.w].msg)) {
        AcceptOrder(c, s, a.w, s.writers[a.w].msg, topic);
      }
    } else {
      ApplyShards(c, s, a);
      if OfWorker(a) && a.i < |s.shards| { StepShardInv(c, s, a); }
    }
  }

  lemma {:induction false} RunOrder(c: Config, writers: nat, actions: seq<Action>, topic: seq<nat>)
    requires ValidConfig(c) && 0 <= c.maxRetries
    ensures TopicOrder(c, Run(c, writers, actions), topic)
  {
    if actions != [] {
      var k := |actions| - 1;
      RunOrder(c, writers, actions[..k], topic);
      RunInv(c, writers, actions[..k]);
      StepOrder(c, Run(c, writers, actions[..k]), actions[k], topic);
    }
  }

  // ---------------------------------------------------------------------------------------------
  // Main results

  /** How often m is stored, buffered or in a channel, over all shards. */
  function HeldCount(shards: seq<Shard>, m: Message): nat {
    if shards == [] then 0
    else
      var last := shards[|shards| - 1];
      HeldCount(shards[..|shards| - 1], m) +
      multiset(Flat(last.stored))[m] + multiset(last.buffer)[m] + multiset(last.chan)[m]
  }

  lemma {:induction false} HeldIsReceived(c: Config, shards: seq<Shard>, m: Message)
    requires forall i :: 0 <= i < |shards| ==> ShardInv(c, shards[i])
    ensures HeldCount(shards, m) == ReceivedCount(shards, m)
  {
    if shards != [] {
      var k := |shards| - 1;
      HeldIsReceived(c, shards[..k], m);
      assert ShardInv(c, shards[k]);
      assert multiset(shards[k].received) ==
             multiset(Flat(shards[k].stored)) + multiset(shards[k].buffer) + multiset(shards[k].chan);
    }
  }

  /**
   Conservation: in every interleaving, with any outcomes of the storage calls, before and after stop, every message
   is stored, buffered or queued exactly as often as it was accepted, and only ever in its hash shard or the next one.
   */
  lemma Conservation(c: Config, writers: nat, actions: seq<Action>, m: Message)
    requires ValidConfig(c) && 0 <= c.maxRetries
    ensures var s := Run(c, writers, actions);
            && HeldCount(s.shards, m) == multiset(s.accepted)[m]
            && (forall i, k :: 0 <= i < |s.shards| && 0 <= k < |s.shards[i].received| ==> Home(c, i, s.shards[i].received[k], s.spilled))
            && (forall i :: 0 <= i < |s.shards| ==>
                  && |s.shards[i].chan| <= ChannelSize(c)
                  && Flat(s.shards[i].stored) + s.shards[i].buffer + s.shards[i].chan == s.shards[i].received)
  {
    RunInv(c, writers, actions);
    RunCounts(c, writers, actions, m);
    HeldIsReceived(c, Run(c, writers, actions).shards, m);
  }

  lemma PrefixOfThree(a: seq<Message>, b: seq<Message>, d: seq<Message>, all: seq<Message>, topic: seq<nat>)
    requires a + b + d == all
    ensures OfTopic(a, topic) <= OfTopic(all, topic)
  {
    assert a + b + d == a + (b + d);
    OfTopicConcat(a, b + d, topic);
  }

  lemma {:induction false} NoneOfTopic(ms: seq<Message>, topic: seq<nat>)
    requires forall k :: 0 <= k < |ms| ==> ms[k].topic != topic
    ensures OfTopic(ms, topic) == []
  {
    if ms != [] { NoneOfTopic(ms[..|ms| - 1], topic); }
  }

  /**
   As long as no message spilled, a topic's home shard stores the topic's messages in the order they were written, from
   the first one on, and no other shard stores, buffers or queues any of them.
   */
  lemma StoredInWriteOrder(c: Config, writers: nat, actions: seq<Action>, topic: seq<nat>)
    requires ValidConfig(c) && 0 <= c.maxRetries && !Run(c, writers, actions).spilled
    ensures var s, home := Run(c, writers, actions), HashOf(topic) % c.shards;
            && OfTopic(Flat(s.shards[home].stored), topic) <= OfTopic(s.accepted, topic)
            && forall i :: 0 <= i < c.shards && i != home ==>
                 OfTopic(Flat(s.shards[i].stored) + s.shards[i].buffer + s.shards[i].chan, topic) == []
  {
    RunInv(c, writers, actions);
    RunOrder(c, writers, actions, topic);
    var s, home := Run(c, writers, actions), HashOf(topic) % c.shards;
    var shard := s.shards[home];
    assert ShardInv(c, shard);
    PrefixOfThree(Flat(shard.stored), shard.buffer, shard.chan, shard.received, topic);
    forall i | 0 <= i < c.shards && i != home
      ensures OfTopic(Flat(s.shards[i].stored) + s.shards[i].buffer + s.shards[i].chan, topic) == []
    {
      assert ShardInv(c, s.shards[i]);
      assert forall k :: 0 <= k < |s.shards[i].received| ==> Home(c, i, s.shards[i].received[k], false);
      NoneOfTopic(s.shards[i].received, topic);
    }
  }

  // ---------------------------------------------------------------------------------------------
  // What a stop leaves behind

  predicate Empty(shard: Shard) {
    shard.chan == [] && shard.buffer == []
  }

  function StoredCount(shards: seq<Shard>, m: Message): nat {
    if shards == [] then 0 else StoredCount(shards[..|shards| - 1], m) + multiset(Flat(shards[|shards| - 1].stored))[m]
  }

  lemma {:induction false} StoredAtMostHeld(shards: seq<Shard>, m: Message)
    ensures StoredCount(shards, m) <= HeldCount(shards, m)
  {
    if shards != [] { StoredAtMostHeld(shards[..|shards| - 1], m); }
  }

  lemma {:induction false} EmptyStoredIsHeld(shards: seq<Shard>, m: Message)
    requires forall i :: 0 <= i < |shards| ==> Empty(shards[i])
    ensures StoredCount(shards, m) == HeldCount(shards, m)
  {
    if shards != [] {
      assert Empty(shards[|shards| - 1]);
      EmptyStoredIsHeld(shards[..|shards| - 1], m);
    }
  }

  lemma {:induction false} MoreHeld(shards: seq<Shard>, i: nat, m: Message)
    requires i < |shards| && (m in shards[i].chan || m in shards[i].buffer)
    ensures StoredCount(shards, m) < HeldCount(shards, m)
  {
    var k := |shards| - 1;
    if i < k {
      MoreHeld(shards[..k], i, m);
      assert shards[..k][i] == shards[i];
    } else {
      StoredAtMostHeld(shards[..k], m);
    }
  }

  /** Every accepted message is stored as often as it was accepted. */
  ghost predicate AllStored(s: State) {
    forall m :: StoredCount(s.shards, m) == multiset(s.accepted)[m]
  }

  predicate AllEmpty(s: State) {
    forall i :: 0 <= i < |s.shards| ==> Empty(s.shards[i])
  }

  /** At any moment every accepted message is stored exactly if all channels and buffers are empty. */
  lemma StoredExactlyIfEmpty(c: Config, writers: nat, actions: seq<Action>)
    requires ValidConfig(c) && 0 <= c.maxRetries
    ensures AllStored(Run(c, writers, actions)) <==> AllEmpty(Run(c, writers, actions))
  {
    var s := Run(c, writers, actions);
    if i :| 0 <= i < |s.shards| && !Empty(s.shards[i]) {
      var m := if s.shards[i].chan != [] then s.shards[i].chan[0] else s.shards[i].buffer[0];
      Conservation(c, writers, actions, m);
      MoreHeld(s.shards, i, m);
    } else {
      forall m ensures StoredCount(s.shards, m) == multiset(s.accepted)[m] {
        Conservation(c, writers, actions, m);
        EmptyStoredIsHeld(s.shards, m);
      }
    }
  }

  /** The worker of shard i sees the stop or the cancellation: it receives no more. */
  predicate Leaves(s: State, a: Action, i: nat)
    requires i < |s.shards|
  {
    && s.shards[i].worker.Selecting?
    && ((a == SeeStop(i) && !s.running) || (a == SeeCancel(i) && s.cancelled))
  }

  /** A send goes into the channel of shard i. */
  predicate Into(c: Config, s: State, a: Action, i: nat)
    requires 0 < c.shards == |s.shards| && i < |s.shards|
  {
    && a.Send? && a.w < |s.writers|
    && match s.writers[a.w] {
         case Idle => false
         case Trying(m) => ShardOf(c, m) == i && Room(c, s, i)
         case TryingNext(m) => NextShard(c, ShardOf(c, m)) == i && Room(c, s, i)
       }
  }

  /** A storage call of shard i succeeds. */
  predicate Stores(s: State, a: Action, i: nat)
    requires i < |s.shards|
  {
    a == Attempt(i, true) && s.shards[i].worker.Flushing?
  }

  predicate LeavesAt(c: Config, writers: nat, actions: seq<Action>, p: nat, i: nat)
    requires i < c.shards
  {
    p < |actions| && Leaves(Run(c, writers, actions[..p]), actions[p], i)
  }

  predicate IntoAt(c: Config, writers: nat, actions: seq<Action>, q: nat, i: nat)
    requires i < c.shards
  {
    q < |actions| && Into(c, Run(c, writers, actions[..q]), actions[q], i)
  }

  predicate StoresAt(c: Config, writers: nat, actions: seq<Action>, q: nat, i: nat)
    requires i < c.shards
  {
    q < |actions| && Stores(Run(c, writers, actions[..q]), actions[q], i)
  }

  predicate SentAfter(c: Config, writers: nat, actions: seq<Action>, p: nat, i: nat)
    requires i < c.shards
  {
    exists q :: p < q < |actions| && IntoAt(c, writers, actions, q, i)
  }

  predicate StoredAfter(c: Config, writers: nat, actions: seq<Action>, p: nat, i: nat)
    requires i < c.shards
  {
    exists q :: p < q < |actions| && StoresAt(c, writers, actions, q, i)
  }

  /** A worker past its last receive is flushing for the last time or has exited. */
  predicate Leaving(shard: Shard) {
    shard.worker.Exited? || (shard.worker.Flushing? && shard.worker.last)
  }

  /** How a shard whose worker is leaving may change. */
  predicate Left(c: Config, s: State, a: Action, i: nat, shard': Shard)
    requires 0 < c.shards == |s.shards| && i < |s.shards|
  {
    var shard := s.shards[i];
    && Leaving(shard')
    && (shard'.chan == [] <==> shard.chan == [] && !Into(c, s, a, i))
    && shard'.buffer == (if Stores(s, a, i) then [] else shard.buffer)
    && (shard.worker.Exited? ==> shard'.worker.Exited?)
  }

  lemma WorkerLeaving(c: Config, s: State, a: Action, i: nat)
    requires 0 <= c.maxRetries && 0 < c.shards == |s.shards| && i < |s.shards| && Leaving(s.shards[i])
    requires OfWorker(a) && a.i == i
    ensures Left(c, s, a, i, StepShard(c, s, a))
  {
  }

  lemma AcceptShard(s: State, w: nat, j: nat, m: Message, spilled: bool, i: nat)
    requires i < |s.shards| && j < |s.shards| && w < |s.writers|
    ensures var shard, shard' := s.shards[i], Accept(s, w, j, m, spilled).shards[i];
            && shard'.worker == shard.worker && shard'.buffer == shard.buffer
            && (if i == j then shard'.chan != [] else shard' == shard)
  {
  }

  /** A send adds to the shard it goes into and leaves the others as they are. */
  lemma SendShard(c: Config, s: State, w: nat, i: nat)
    requires 0 < c.shards == |s.shards| && i < |s.shards| && w < |s.writers|
    ensures var shard, shard' := s.shards[i], StepWriter(c, s, w).shards[i];
            && shard'.worker == shard.worker && shard'.buffer == shard.buffer
            && (if Into(c, s, Send(w), i) then shard'.chan != [] else shard' == shard)
  {
    if !s.writers[w].Idle? {
      var m := s.writers[w].msg;
      var j := if s.writers[w].Trying? then ShardOf(c, m) else NextShard(c, ShardOf(c, m));
      if Room(c, s, j) { AcceptShard(s, w, j, m, s.writers[w].TryingNext?, i); }
    }
  }

  /** One action on a shard whose worker is leaving. */
  lemma LeavingStep(c: Config, s: State, a: Action, i: nat)
    requires 0 <= c.maxRetries && 0 < c.shards == |s.shards| && i < |s.shards| && Leaving(s.shards[i])
    ensures Left(c, s, a, i, Apply(c, s, a).shards[i])
  {
    if a.Send? && a.w < |s.writers| {
      SendShard(c, s, a.w, i);
    } else if !a.Send? {
      ApplyShards(c, s, a);
      if OfWorker(a) && a.i == i { WorkerLeaving(c, s, a, i); }
    }
  }

  /** The shard after the action with which its worker leaves. */
  lemma LeaveStep(c: Config, s: State, a: Action, i: nat)
    requires 0 <= c.maxRetries && 0 < c.shards == |s.shards| && i < |s.shards| && Leaves(s, a, i)
    ensures var shard, shard' := s.shards[i], Apply(c, s, a).shards[i];
            && Leaving(shard') && shard'.chan == shard.chan && shard'.buffer == shard.buffer
            && (shard'.worker.Flushing? <==> a.SeeStop? && shard.buffer != [])
  {
  }

  lemma SameHistory(c: Config, writers: nat, before: seq<Action>, a: Action, p: nat, i: nat)
    requires i < c.shards
    ensures forall q :: 0 <= q < |before| ==> IntoAt(c, writers, before + [a], q, i) == IntoAt(c, writers, before, q, i)
    ensures forall q :: 0 <= q < |before| ==> StoresAt(c, writers, before + [a], q, i) == StoresAt(c, writers, before, q, i)
    ensures IntoAt(c, writers, before + [a], |before|, i) == Into(c, Run(c, writers, before), a, i)
    ensures StoresAt(c, writers, before + [a], |before|, i) == Stores(Run(c, writers, before), a, i)
    ensures p < |before| ==> LeavesAt(c, writers, before + [a], p, i) == LeavesAt(c, writers, before, p, i)
    ensures LeavesAt(c, writers, before + [a], |before|, i) == Leaves(Run(c, writers, before), a, i)
  {
    assert forall q :: 0 <= q <= |before| ==> (before + [a])[..q] == before[..q];
    assert before[..|before|] == before;
  }

  lemma OneMoreAfter(c: Config, writers: nat, before: seq<Action>, a: Action, p: nat, i: nat)
    requires i < c.shards && p < |before|
    ensures SentAfter(c, writers, before + [a], p, i)
            <==> SentAfter(c, writers, before, p, i) || Into(c, Run(c, writers, before), a, i)
    ensures StoredAfter(c, writers, before + [a], p, i)
            <==> StoredAfter(c, writers, before, p, i) || Stores(Run(c, writers, before), a, i)
  {
    SameHistory(c, writers, before, a, p, i);
  }

  /** What is left in a shard, from the moment p its worker left. */
  ghost predicate LeftSince(c: Config, writers: nat, actions: seq<Action>, p: nat, i: nat)
    requires i < c.shards && p < |actions|
  {
    var start, shard := Run(c, writers, actions[..p]).shards[i], Run(c, writers, actions).shards[i];
    && Leaving(shard)
    && (shard.chan == [] <==> start.chan == [] && !SentAfter(c, writers, actions, p, i))
    && (shard.buffer == [] <==> start.buffer == [] || StoredAfter(c, writers, actions, p, i))
    && (StoredAfter(c, writers, actions, p, i) || shard.worker.Flushing? ==> actions[p].SeeStop? && start.buffer != [])
  }

  lemma {:induction false} LeftExactly(c: Config, writers: nat, actions: seq<Action>, p: nat, i: nat)
    requires ValidConfig(c) && 0 <= c.maxRetries && i < c.shards && LeavesAt(c, writers, actions, p, i)
    ensures LeftSince(c, writers, actions, p, i)
  {
    var before, a := actions[..|actions| - 1], actions[|actions| - 1];
    assert actions == before + [a];
    SameHistory(c, writers, before, a, p, i);
    if p == |before| {
      LeaveStep(c, Run(c, writers, before), a, i);
      assert !SentAfter(c, writers, actions, p, i) && !StoredAfter(c, writers, actions, p, i);
    } else {
      LeftExactly(c, writers, before, p, i);
      LeavingStep(c, Run(c, writers, before), a, i);
      OneMoreAfter(c, writers, before, a, p, i);
      assert actions[..p] == before[..p];
    }
  }

  lemma ExitStep(c: Config, s: State, a: Action, i: nat)
    requires 0 <= c.maxRetries && 0 < c.shards == |s.shards| && i < |s.shards|
    ensures Leaving(Apply(c, s, a).shards[i]) ==> Leaving(s.shards[i]) || Leaves(s, a, i)
  {
    if a.Send? && a.w < |s.writers| { SendShard(c, s, a.w, i); }
  }

  /** A worker that is leaving has seen the stop or the cancellation at some moment. */
  lemma {:induction false} WhenItLeft(c: Config, writers: nat, actions: seq<Action>, i: nat) returns (p: nat)
    requires ValidConfig(c) && 0 <= c.maxRetries && i < c.shards && Leaving(Run(c, writers, actions).shards[i])
    ensures LeavesAt(c, writers, actions, p, i)
  {
    var before, a := actions[..|actions| - 1], actions[|actions| - 1];
    assert actions == before + [a];
    ExitStep(c, Run(c, writers, before), a, i);
    if Leaves(Run(c, writers, before), a, i) {
      p := |before|;
      SameHistory(c, writers, before, a, p, i);
    } else {
      p := WhenItLeft(c, writers, before, i);
      SameHistory(c, writers, before, a, p, i);
    }
  }

  /**
   Shard i empties exactly if, when its worker saw the stop, its channel was empty and stayed so, and its buffer was
   empty or a later storage call succeeded.
   */
  ghost predicate Clean(c: Config, writers: nat, actions: seq<Action>, p: nat, i: nat)
    requires i < c.shards
  {
    && p < |actions|
    && var start := Run(c, writers, actions[..p]).shards[i];
    && start.chan == [] && !SentAfter(c, writers, actions, p, i)
    && (start.buffer == [] || StoredAfter(c, writers, actions, p, i))
  }

  lemma {:induction false} WhenAllLeft(c: Config, writers: nat, actions: seq<Action>, n: nat) returns (left: seq<nat>)
    requires ValidConfig(c) && 0 <= c.maxRetries && n <= c.shards
    requires forall i :: 0 <= i < c.shards ==> Run(c, writers, actions).shards[i].worker.Exited?
    ensures |left| == n && forall i :: 0 <= i < n ==> LeavesAt(c, writers, actions, left[i], i)
  {
    if n == 0 {
      left := [];
    } else {
      var before := WhenAllLeft(c, writers, actions, n - 1);
      var p := WhenItLeft(c, writers, actions, n - 1);
      left := before + [p];
    }
  }

  /**
   Once all workers have exited, every accepted message is stored exactly if each worker left its shard clean: left[i]
   is the action with which the worker of shard i saw the stop or the cancellation.
   */
  lemma StopStoresAllExactly(c: Config, writers: nat, actions: seq<Action>) returns (left: seq<nat>)
    requires ValidConfig(c) && 0 <= c.maxRetries
    requires forall i :: 0 <= i < c.shards ==> Run(c, writers, actions).shards[i].worker.Exited?
    ensures |left| == c.shards && forall i :: 0 <= i < c.shards ==> LeavesAt(c, writers, actions, left[i], i)
    ensures AllStored(Run(c, writers, actions)) <==> forall i :: 0 <= i < c.shards ==> Clean(c, writers, actions, left[i], i)
  {
    left := WhenAllLeft(c, writers, actions, c.shards);
    StoredExactlyIfEmpty(c, writers, actions);
    var s := Run(c, writers, actions);
    forall i | 0 <= i < c.shards ensures Empty(s.shards[i]) <==> Clean(c, writers, actions, left[i], i) {
      LeftExactly(c, writers, actions, left[i], i);
    }
    assert AllEmpty(s) <==> forall i :: 0 <= i < c.shards ==> Clean(c, writers, actions, left[i], i);
  }

  /** An accepted message can be lost to a stop: Write returns nil, Stop returns, and the store is empty. */
  lemma StopCanLose(m: Message, c: Config)
    requires c.shards == 1 && 0 < c.batchSize
    ensures exists actions :: var s := Run(c, 1, actions);
              s.accepted == [m] && !s.running && s.shards[0].worker.Exited? && s.shards[0].stored == []
  {
    var a1 := [CallWrite(0, m)];
    var a2 := a1 + [Send(0)];
    var a3 := a2 + [Stop];
    var a4 := a3 + [SeeStop(0)];
    assert a1[..0] == [] && a2[..1] == a1 && a3[..2] == a2 && a4[..3] == a3;
    var s0 := Run(c, 1, []);
    assert s0.shards[0] == Shard([], [], Selecting, [], []);
    var s1 := Run(c, 1, a1);
    assert s1.writers[0] == Trying(m) && s1.shards == s0.shards;
    assert Run(c, 1, a2).shards[0].chan == [m] && Run(c, 1, a2).shards[0].buffer == [] && Run(c, 1, a2).accepted == [m];
    assert Run(c, 1, a4).shards[0].worker.Exited?;
  }

  lemma Then(c: Config, writers: nat, actions: seq<Action>, a: Action)
    requires 0 < c.shards
    ensures Run(c, writers, actions + [a]) == Apply(c, Run(c, writers, actions), a)
  {
  }

  /** One message accepted, and in the channel of its shard. */
  function OneAccepted(c: Config, m: Message): State
    requires 0 < c.shards
  {
    var s := Init(c, 1);
    s.(shards := s.shards[ShardOf(c, m) := Shard([m], [], Selecting, [], [m])], accepted := [m])
  }

  lemma WriteCalled(c: Config, m: Message)
    requires ValidConfig(c)
    ensures Apply(c, Init(c, 1), CallWrite(0, m)) == Init(c, 1).(writers := [Trying(m)])
  {
    assert Init(c, 1).writers == [Idle];
  }

  lemma WriteSent(c: Config, m: Message)
    requires ValidConfig(c)
    ensures Apply(c, Init(c, 1).(writers := [Trying(m)]), Send(0)) == OneAccepted(c, m)
  {
    assert Init(c, 1).shards[ShardOf(c, m)] == Shard([], [], Selecting, [], []);
    assert [] + [m] == [m];
  }

  lemma OneAcceptedReached(c: Config, m: Message)
    requires ValidConfig(c)
    ensures Run(c, 1, [] + [CallWrite(0, m)] + [Send(0)]) == OneAccepted(c, m)
  {
    Then(c, 1, [], CallWrite(0, m));
    Then(c, 1, [] + [CallWrite(0, m)], Send(0));
    WriteCalled(c, m);
    WriteSent(c, m);
  }

  lemma ThrownAway(c: Config, m: Message)
    requires ValidConfig(c) && c.maxRetries < 0
    ensures var i := ShardOf(c, m);
            var s := Apply(c, Apply(c, OneAccepted(c, m), Receive(i)), Tick(i));
            s.shards == Init(c, 1).shards[i := Shard([], [], Selecting, [], [m])] && s.accepted == [m]
  {
    var i := ShardOf(c, m);
    assert [m][1..] == [] && [] + [m] == [m];
  }

  /** With a negative retry bound an accepted message is thrown away by the next tick. */
  lemma NegativeRetriesLose(c: Config, m: Message) returns (actions: seq<Action>)
    requires ValidConfig(c) && c.maxRetries < 0
    ensures var s := Run(c, 1, actions);
            && s.accepted == [m] && ReceivedCount(s.shards, m) == 1
            && forall i :: 0 <= i < c.shards ==> Empty(s.shards[i]) && s.shards[i].stored == []
  {
    var i, sent := ShardOf(c, m), [] + [CallWrite(0, m)] + [Send(0)];
    OneAcceptedReached(c, m);
    Then(c, 1, sent, Receive(i));
    Then(c, 1, sent + [Receive(i)], Tick(i));
    ThrownAway(c, m);
    actions := sent + [Receive(i)] + [Tick(i)];
    NothingReceived(Init(c, 1).shards, m);
    ReceivedUpdate(Init(c, 1).shards, i, Shard([], [], Selecting, [], [m]), m);
  }

  predicate Conserved(c: Config, writers: nat, actions: seq<Action>, m: Message)
    requires 0 < c.shards
  {
    var s := Run(c, writers, actions);
    HeldCount(s.shards, m) == multiset(s.accepted)[m]
  }

  lemma {:induction false} NothingHeld(shards: seq<Shard>, m: Message)
    requires forall i :: 0 <= i < |shards| ==> Empty(shards[i]) && shards[i].stored == []
    ensures HeldCount(shards, m) == 0
  {
    if shards != [] {
      NothingHeld(shards[..|shards| - 1], m);
      assert Empty(shards[|shards| - 1]);
    }
  }

  /** No run loses an accepted message exactly if the retry bound is not negative. */
  lemma ConservedExactly(c: Config)
    requires ValidConfig(c)
    ensures (forall writers, actions, m :: Conserved(c, writers, actions, m)) <==> 0 <= c.maxRetries
  {
    if 0 <= c.maxRetries {
      forall writers, actions, m ensures Conserved(c, writers, actions, m) { Conservation(c, writers, actions, m); }
    } else {
      var m := Message([], 0);
      var actions := NegativeRetriesLose(c, m);
      NothingHeld(Run(c, 1, actions).shards, m);
      assert !Conserved(c, 1, actions, m);
    }
  }
}
