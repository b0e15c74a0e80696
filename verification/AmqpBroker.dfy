/**
 AMQP delivery (pkg/amqp/server.go): queues, unacknowledged messages and delivery tags. The class carries out the
 handlers; the machine below interleaves them, with the consume handler broken up where it lets go of the mutex.
 */
module AmqpBroker {
  import opened Sums

  datatype Body = Body(bytes: seq<nat>)

  datatype Unacked = Unacked(queue: string, body: Body, redelivered: bool)

  /**
   The delivery part of a channel: count is CurrentlyUnacked, next is NextDeliveryTag. issued, the tags handed out so
   far, is history that nothing reads.
   */
  datatype Channel = Channel(
    bound: string, unacked: map<nat, Unacked>, count: int, next: nat, consumer: string, issued: seq<nat>)

  const NEW_CHANNEL := Channel("", map[], 0, 0, "", [])

  datatype Broker = Broker(queues: map<string, seq<Body>>, channels: map<nat, Channel>)

  datatype Error = NoTargetQueue | QueueNotFound | ChannelNotFound

  datatype Result = Ok | Err(error: Error)

  // ---------------------------------------------------------------------------------------------
  // Handlers, each under the mutex

  function ChannelOf(b: Broker, ch: nat): Channel {
    if ch in b.channels then b.channels[ch] else NEW_CHANNEL
  }

  function SetChannel(b: Broker, ch: nat, c: Channel): Broker {
    b.(channels := b.channels[ch := c])
  }

  function AfterDeclare(b: Broker, ch: nat, name: string): Broker {
    SetChannel(b.(queues := if name in b.queues then b.queues else b.queues[name := []]), ch, ChannelOf(b, ch).(bound := name))
  }

  /** The queue a message goes to: its routing key, else the channel's bound queue; "" if there is neither. */
  function Target(b: Broker, ch: nat, key: string): string {
    if key != "" then key else ChannelOf(b, ch).bound
  }

  function PublishResult(b: Broker, ch: nat, key: string): Result {
    if Target(b, ch, key) == "" then Err(NoTargetQueue)
    else if Target(b, ch, key) !in b.queues then Err(QueueNotFound)
    else Ok
  }

  function AfterPublish(b: Broker, ch: nat, key: string, body: Body): Broker {
    var q := Target(b, ch, key);
    if PublishResult(b, ch, key).Ok? && q in b.queues then b.(queues := b.queues[q := b.queues[q] + [body]]) else b
  }

  function AfterRegister(b: Broker, ch: nat, consumer: string): Broker {
    SetChannel(b, ch, ChannelOf(b, ch).(consumer := consumer))
  }

  /** The consume handler empties the queue and makes sure the channel has a first tag. */
  function AfterTakeAll(b: Broker, ch: nat, queue: string): Broker {
    var c := ChannelOf(b, ch);
    SetChannel(b.(queues := b.queues[queue := []]), ch, if c.next == 0 then c.(next := 1) else c)
  }

  /** A message leaves for the consumer under the channel's next tag. */
  function Tracked(c: Channel, queue: string, body: Body, redelivered: bool): Channel {
    c.(unacked := c.unacked[c.next := Unacked(queue, body, redelivered)], count := c.count + 1, next := c.next + 1,
       issued := c.issued + [c.next])
  }

  function AfterDeliver(b: Broker, ch: nat, queue: string, body: Body): Broker {
    SetChannel(b, ch, Tracked(ChannelOf(b, ch), queue, body, false))
  }

  predicate Known(b: Broker, ch: nat, tag: nat) {
    ch in b.channels && tag in b.channels[ch].unacked
  }

  function Untracked(c: Channel, tag: nat): Channel {
    c.(unacked := c.unacked - {tag}, count := c.count - 1)
  }

  function AfterAck(b: Broker, ch: nat, tag: nat): Broker {
    if Known(b, ch, tag) then SetChannel(b, ch, Untracked(b.channels[ch], tag)) else b
  }

  /** A negative acknowledgement puts the message back into its queue and also delivers it again, under a new tag. */
  function AfterNack(b: Broker, ch: nat, tag: nat): Broker {
    if !Known(b, ch, tag) then b
    else
      var c := b.channels[ch];
      var u := c.unacked[tag];
      if u.queue !in b.queues then SetChannel(b, ch, Untracked(c, tag))
      else SetChannel(b.(queues := b.queues[u.queue := b.queues[u.queue] + [u.body]]), ch,
                      Tracked(Untracked(c, tag), u.queue, u.body, true))
  }

  function AckResult(b: Broker, ch: nat): Result {
    if ch in b.channels then Ok else Err(ChannelNotFound)
  }

  function NackResult(b: Broker, ch: nat, tag: nat): Result {
    if ch !in b.channels then Err(ChannelNotFound)
    else if Known(b, ch, tag) && b.channels[ch].unacked[tag].queue !in b.queues then Err(QueueNotFound)
    else Ok
  }

  class Server {
    var queues: map<string, seq<Body>>
    var channels: map<nat, Channel>

    function View(): Broker
      reads this
    {
      Broker(queues, channels)
    }

    constructor ()
      ensures View() == Broker(map[], map[])
    {
      queues, channels := map[], map[];
    }

    /** generated stands for the name made from the clock when the caller gives none. */
    method HandleQueueDeclare(ch: nat, name: string, generated: string)
      modifies this
      ensures View() == AfterDeclare(old(View()), ch, if name == "" then generated else name)
    {
      var n := if name == "" then generated else name;
      if n !in queues {
        queues := queues[n := []];
      }
      if ch !in channels {
        channels := channels[ch := NEW_CHANNEL];
      }
      channels := channels[ch := channels[ch].(bound := n)];
    }

    method HandleBasicPublish(ch: nat, routingKey: string, body: Body) returns (r: Result)
      modifies this
      ensures r == PublishResult(old(View()), ch, routingKey) && View() == AfterPublish(old(View()), ch, routingKey, body)
    {
      var target;
      if routingKey != "" {
        target := routingKey;
      } else if ch in channels && channels[ch].bound != "" {
        target := channels[ch].bound;
      } else {
        return Err(NoTargetQueue);
      }
      if target !in queues {
        return Err(QueueNotFound);
      }
      queues := queues[target := queues[target] + [body]];
      return Ok;
    }

    /** The whole consume handler when nothing interleaves with it. */
    method HandleBasicConsume(ch: nat, queue: string, consumer: string) returns (r: Result)
      modifies this
      ensures queue !in old(queues) ==> r == Err(QueueNotFound) && View() == old(View())
      ensures queue in old(queues) ==>
                r == Ok && View() == AfterDeliveries(AfterTakeAll(AfterRegister(old(View()), ch, consumer), ch, queue), ch, queue, old(queues[queue]))
    {
      if queue !in queues {
        return Err(QueueNotFound);
      }
      if ch !in channels {
        channels := channels[ch := NEW_CHANNEL];
      }
      channels := channels[ch := channels[ch].(consumer := consumer)];
      var messages := queues[queue];
      queues := queues[queue := []];
      if channels[ch].next == 0 {
        channels := channels[ch := channels[ch].(next := 1)];
      }
      assert View() == AfterTakeAll(AfterRegister(old(View()), ch, consumer), ch, queue);
      DeliverAll(ch, queue, messages);
      return Ok;
    }

    /** The delivery loop of the consume handler. */
    method DeliverAll(ch: nat, queue: string, messages: seq<Body>)
      requires ch in channels
      modifies this`channels
      ensures View() == AfterDeliveries(old(View()), ch, queue, messages)
    {
      ghost var start := View();
      for i := 0 to |messages|
        invariant ch in channels && queues == start.queues
        invariant View() == AfterDeliveries(start, ch, queue, messages[..i])
      {
        var c := channels[ch];
        var tag := c.next;
        c := c.(next := tag + 1, issued := c.issued + [tag]);
        c := c.(unacked := c.unacked[tag := Unacked(queue, messages[i], false)]);
        c := c.(count := c.count + 1);
        channels := channels[ch := c];
        assert messages[..i + 1][..i] == messages[..i];
      }
      assert messages[..|messages|] == messages;
    }

    method HandleBasicAck(ch: nat, tag: nat) returns (r: Result)
      modifies this
      ensures r == AckResult(old(View()), ch) && View() == AfterAck(old(View()), ch, tag)
    {
      if ch !in channels {
        return Err(ChannelNotFound);
      }
      if tag in channels[ch].unacked {
        channels := channels[ch := channels[ch].(unacked := channels[ch].unacked - {tag})];
        channels := channels[ch := channels[ch].(count := channels[ch].count - 1)];
      }
      return Ok;
    }

    method HandleBasicNack(ch: nat, tag: nat) returns (r: Result)
      modifies this
      ensures r == NackResult(old(View()), ch, tag) && View() == AfterNack(old(View()), ch, tag)
    {
      if ch !in channels {
        return Err(ChannelNotFound);
      }
      if tag !in channels[ch].unacked {
        return Ok;
      }
      var u := channels[ch].unacked[tag];
      channels := channels[ch := channels[ch].(unacked := channels[ch].unacked - {tag}, count := channels[ch].count - 1)];
      if u.queue in queues {
        queues := queues[u.queue := queues[u.queue] + [u.body]];
      } else {
        return Err(QueueNotFound);
      }
      var c := channels[ch];
      var newTag := c.next;
      c := c.(next := newTag + 1, issued := c.issued + [newTag]);
      c := c.(unacked := c.unacked[newTag := Unacked(u.queue, u.body, true)]);
      channels := channels[ch := c.(count := c.count + 1)];
      return Ok;
    }
  }

  function AfterDeliveries(b: Broker, ch: nat, queue: string, bodies: seq<Body>): Broker {
    if bodies == [] then b
    else AfterDeliver(AfterDeliveries(b, ch, queue, bodies[..|bodies| - 1]), ch, queue, bodies[|bodies| - 1])
  }

  // ---------------------------------------------------------------------------------------------
  // The machine: any number of handlers at once

  datatype Thread =
    | Idle
    | Found(ch: nat, queue: string, consumer: string)
    | Registered(ch: nat, queue: string)
    | Delivering(ch: nat, queue: string, rest: seq<Body>)

  /**
   published, acked and requeued are history: the bodies that entered a queue by publish, left by acknowledgement, and
   came back by negative acknowledgement.
   */
  datatype State = State(
    broker: Broker, threads: seq<Thread>, published: seq<Body>, acked: seq<Body>, requeued: seq<Body>)

  datatype Action =
    | Declare(ch: nat, name: string)
    | Publish(ch: nat, key: string, body: Body)
    | Consume(t: nat, ch: nat, queue: string, consumer: string)
    | Proceed(t: nat)
    | Ack(ch: nat, tag: nat)
    | Nack(ch: nat, tag: nat)

  function Go(s: State, t: nat, b: Broker, thread: Thread): State
    requires t < |s.threads|
  {
    s.(broker := b, threads := s.threads[t := thread])
  }

  function StepThread(s: State, t: nat): State
    requires t < |s.threads|
  {
    match s.threads[t]
    case Idle => s
    case Found(ch, queue, consumer) => Go(s, t, AfterRegister(s.broker, ch, consumer), Registered(ch, queue))
    case Registered(ch, queue) =>
      var messages := if queue in s.broker.queues then s.broker.queues[queue] else [];
      Go(s, t, AfterTakeAll(s.broker, ch, queue), if messages == [] then Idle else Delivering(ch, queue, messages))
    case Delivering(ch, queue, rest) =>
      if rest == [] then Go(s, t, s.broker, Idle)
      else Go(s, t, AfterDeliver(s.broker, ch, queue, rest[0]), Delivering(ch, queue, rest[1..]))
  }

  function Apply(s: State, a: Action): State {
    match a
    case Declare(ch, name) => s.(broker := AfterDeclare(s.broker, ch, name))
    case Publish(ch, key, body) =>
      s.(broker := AfterPublish(s.broker, ch, key, body),
         published := if PublishResult(s.broker, ch, key).Ok? then s.published + [body] else s.published)
    case Consume(t, ch, queue, consumer) =>
      if t < |s.threads| && s.threads[t].Idle? && queue in s.broker.queues
      then s.(threads := s.threads[t := Found(ch, queue, consumer)]) else s
    case Proceed(t) => if t < |s.threads| then StepThread(s, t) else s
    case Ack(ch, tag) =>
      s.(broker := AfterAck(s.broker, ch, tag),
         acked := if Known(s.broker, ch, tag) then s.acked + [s.broker.channels[ch].unacked[tag].body] else s.acked)
    case Nack(ch, tag) =>
      if Known(s.broker, ch, tag) then
        s.(broker := AfterNack(s.broker, ch, tag),
           requeued := s.requeued + [s.broker.channels[ch].unacked[tag].body])
      else s
  }

  function Init(threads: nat): State {
    State(Broker(map[], map[]), seq(threads, _ => Idle), [], [], [])
  }

  function Run(threads: nat, actions: seq<Action>): State {
    if actions == [] then Init(threads)
    else Apply(Run(threads, actions[..|actions| - 1]), actions[|actions| - 1])
  }

  // ---------------------------------------------------------------------------------------------
  // Tags and counters

  /** Tags handed out rise strictly from 1 and lie below the next one; every unacknowledged message has such a tag
      and comes from a queue that exists; the counter counts them. */
  ghost predicate ChannelInv(c: Channel, queues: set<string>) {
    && c.count == |c.unacked|
    && (forall tag :: tag in c.unacked ==> tag in c.issued && c.unacked[tag].queue in queues)
    && (forall i :: 0 <= i < |c.issued| ==> 1 <= c.issued[i] < c.next)
    && (forall i, j :: 0 <= i < j < |c.issued| ==> c.issued[i] < c.issued[j])
  }

  ghost predicate BrokerInv(b: Broker) {
    forall ch :: ch in b.channels ==> ChannelInv(b.channels[ch], b.queues.Keys)
  }

  ghost predicate ThreadInv(b: Broker, thread: Thread) {
    match thread
    case Idle => true
    case Found(_, queue, _) => queue in b.queues
    case Registered(_, queue) => queue in b.queues
    case Delivering(ch, queue, _) => queue in b.queues && ChannelOf(b, ch).next >= 1
  }

  ghost predicate Inv(s: State) {
    BrokerInv(s.broker) && forall t :: 0 <= t < |s.threads| ==> ThreadInv(s.broker, s.threads[t])
  }

  /** Queues are never deleted and tags never reset. */
  ghost predicate Grows(b: Broker, b': Broker) {
    && b.queues.Keys <= b'.queues.Keys
    && (forall ch {:trigger ChannelOf(b', ch)} :: ChannelOf(b, ch).next <= ChannelOf(b', ch).next)
    && (forall ch {:trigger ChannelOf(b', ch)} :: ChannelOf(b, ch).issued <= ChannelOf(b', ch).issued)
  }

  lemma TrackedInv(c: Channel, queues: set<string>, queue: string, body: Body, redelivered: bool)
    requires ChannelInv(c, queues) && c.next >= 1 && queue in queues
    ensures ChannelInv(Tracked(c, queue, body, redelivered), queues)
  {
  }

  lemma UntrackedInv(c: Channel, queues: set<string>, tag: nat)
    requires ChannelInv(c, queues) && tag in c.unacked
    ensures ChannelInv(Untracked(c, tag), queues)
    ensures c.next >= 2
  {
  }

  /** The effect of every handler: some queues, keys kept, and one channel. */
  lemma UpdateInv(b: Broker, queues: map<string, seq<Body>>, ch: nat, c: Channel)
    requires BrokerInv(b) && b.queues.Keys <= queues.Keys && ChannelInv(c, b.queues.Keys)
    requires ChannelOf(b, ch).next <= c.next && ChannelOf(b, ch).issued <= c.issued
    ensures var b' := SetChannel(b.(queues := queues), ch, c); BrokerInv(b') && Grows(b, b')
  {
    var b' := SetChannel(b.(queues := queues), ch, c);
    forall o | o in b'.channels ensures ChannelInv(b'.channels[o], queues.Keys) {
      assert o != ch ==> ChannelInv(b.channels[o], b.queues.Keys);
    }
  }

  lemma DeclareInv(b: Broker, ch: nat, name: string)
    requires BrokerInv(b)
    ensures BrokerInv(AfterDeclare(b, ch, name)) && Grows(b, AfterDeclare(b, ch, name))
  {
    UpdateInv(b, if name in b.queues then b.queues else b.queues[name := []], ch, ChannelOf(b, ch).(bound := name));
  }

  lemma PublishInv(b: Broker, ch: nat, key: string, body: Body)
    requires BrokerInv(b)
    ensures BrokerInv(AfterPublish(b, ch, key, body)) && Grows(b, AfterPublish(b, ch, key, body))
  {
    assert AfterPublish(b, ch, key, body).queues.Keys == b.queues.Keys;
  }

  lemma TakeAllInv(b: Broker, ch: nat, queue: string)
    requires BrokerInv(b)
    ensures BrokerInv(AfterTakeAll(b, ch, queue)) && Grows(b, AfterTakeAll(b, ch, queue))
    ensures ChannelOf(AfterTakeAll(b, ch, queue), ch).next >= 1
  {
    var c := ChannelOf(b, ch);
    UpdateInv(b, b.queues[queue := []], ch, if c.next == 0 then c.(next := 1) else c);
  }

  lemma DeliverInv(b: Broker, ch: nat, queue: string, body: Body)
    requires BrokerInv(b) && queue in b.queues && ChannelOf(b, ch).next >= 1
    ensures BrokerInv(AfterDeliver(b, ch, queue, body)) && Grows(b, AfterDeliver(b, ch, queue, body))
  {
    TrackedInv(ChannelOf(b, ch), b.queues.Keys, queue, body, false);
    UpdateInv(b, b.queues, ch, Tracked(ChannelOf(b, ch), queue, body, false));
  }

  lemma AckInv(b: Broker, ch: nat, tag: nat)
    requires BrokerInv(b)
    ensures BrokerInv(AfterAck(b, ch, tag)) && Grows(b, AfterAck(b, ch, tag))
  {
    if Known(b, ch, tag) {
      UntrackedInv(b.channels[ch], b.queues.Keys, tag);
      UpdateInv(b, b.queues, ch, Untracked(b.channels[ch], tag));
    }
  }

  /** A known tag always finds its queue: the "queue not found" branch of a negative acknowledgement is dead. */
  lemma NackInv(b: Broker, ch: nat, tag: nat)
    requires BrokerInv(b)
    ensures NackResult(b, ch, tag) != Err(QueueNotFound)
    ensures BrokerInv(AfterNack(b, ch, tag)) && Grows(b, AfterNack(b, ch, tag))
  {
    if Known(b, ch, tag) {
      var c := b.channels[ch];
      var u := c.unacked[tag];
      assert ChannelInv(c, b.queues.Keys);
      UntrackedInv(c, b.queues.Keys, tag);
      TrackedInv(Untracked(c, tag), b.queues.Keys, u.queue, u.body, true);
      UpdateInv(b, b.queues[u.queue := b.queues[u.queue] + [u.body]], ch, Tracked(Untracked(c, tag), u.queue, u.body, true));
    }
  }

  lemma ThreadsKept(b: Broker, b': Broker, threads: seq<Thread>)
    requires Grows(b, b') && forall t :: 0 <= t < |threads| ==> ThreadInv(b, threads[t])
    ensures forall t :: 0 <= t < |threads| ==> ThreadInv(b', threads[t])
  {
  }

  lemma StepThreadInv(s: State, t: nat)
    requires Inv(s) && t < |s.threads|
    ensures Inv(StepThread(s, t)) && Grows(s.broker, StepThread(s, t).broker)
  {
    StepThreadGrows(s, t);
    ThreadsKept(s.broker, StepThread(s, t).broker, s.threads);
  }

  lemma StepThreadGrows(s: State, t: nat)
    requires Inv(s) && t < |s.threads|
    ensures var s' := StepThread(s, t);
            BrokerInv(s'.broker) && Grows(s.broker, s'.broker) && ThreadInv(s'.broker, s'.threads[t]) && s'.threads == s.threads[t := s'.threads[t]]
  {
    var b := s.broker;
    assert ThreadInv(b, s.threads[t]);
    match s.threads[t] {
      case Idle =>
      case Found(ch, queue, consumer) =>
      case Registered(ch, queue) => TakeAllInv(b, ch, queue);
      case Delivering(ch, queue, rest) => if rest != [] { DeliverInv(b, ch, queue, rest[0]); }
    }
  }

  lemma ApplyInv(s: State, a: Action)
    requires Inv(s)
    ensures Inv(Apply(s, a)) && Grows(s.broker, Apply(s, a).broker)
  {
    match a {
      case Declare(ch, name) => DeclareInv(s.broker, ch, name);
      case Publish(ch, key, body) => PublishInv(s.broker, ch, key, body);
      case Consume(t, ch, queue, consumer) =>
      case Proceed(t) => if t < |s.threads| { StepThreadInv(s, t); }
      case Ack(ch, tag) => AckInv(s.broker, ch, tag);
      case Nack(ch, tag) => NackInv(s.broker, ch, tag);
    }
    if !a.Proceed? && !a.Consume? { ThreadsKept(s.broker, Apply(s, a).broker, s.threads); }
  }

  lemma {:induction false} RunInv(threads: nat, actions: seq<Action>)
    ensures Inv(Run(threads, actions))
  {
    if actions != [] {
      var k := |actions| - 1;
      RunInv(threads, actions[..k]);
      ApplyInv(Run(threads, actions[..k]), actions[k]);
    }
  }

  // ---------------------------------------------------------------------------------------------
  // Accounting, for one body x at a time

  function InQueue(x: Body): seq<Body> -> nat {
    (q: seq<Body>) => multiset(q)[x]
  }

  function IsBody(x: Body): Unacked -> nat {
    (u: Unacked) => if u.body == x then 1 else 0
  }

  ghost function InChannel(x: Body): Channel -> nat {
    (c: Channel) => Sum(c.unacked, IsBody(x))
  }

  function OnItsWay(thread: Thread, x: Body): nat {
    if thread.Delivering? then multiset(thread.rest)[x] else 0
  }

  function AllOnTheirWay(threads: seq<Thread>, x: Body): nat {
    if threads == [] then 0
    else AllOnTheirWay(threads[..|threads| - 1], x) + OnItsWay(threads[|threads| - 1], x)
  }

  lemma {:induction false} OnTheirWayUpdate(threads: seq<Thread>, t: nat, thread: Thread, x: Body)
    requires t < |threads|
    ensures AllOnTheirWay(threads[t := thread], x) + OnItsWay(threads[t], x) == AllOnTheirWay(threads, x) + OnItsWay(thread, x)
  {
    var k := |threads| - 1;
    if t < k {
      OnTheirWayUpdate(threads[..k], t, thread, x);
      assert threads[t := thread][..k] == threads[..k][t := thread];
    } else {
      assert threads[t := thread][..k] == threads[..k];
    }
  }

  lemma {:induction false} NothingOnItsWay(threads: seq<Thread>, x: Body)
    requires forall t :: 0 <= t < |threads| ==> threads[t].Idle?
    ensures AllOnTheirWay(threads, x) == 0
  {
    if threads != [] { NothingOnItsWay(threads[..|threads| - 1], x); }
  }

  /** Copies of x in queues and unacknowledged. */
  ghost function Copies(b: Broker, x: Body): nat {
    Sum(b.queues, InQueue(x)) + Sum(b.channels, InChannel(x))
  }

  /** A handler that changes one channel's unacknowledged messages from n to n' copies of x. */
  lemma ChannelCopies(b: Broker, ch: nat, c: Channel, x: Body)
    ensures Copies(SetChannel(b, ch, c), x) + InChannel(x)(ChannelOf(b, ch)) == Copies(b, x) + InChannel(x)(c)
  {
    SumUpdate(b.channels, ch, c, InChannel(x));
  }

  lemma QueueCopies(b: Broker, q: string, ms: seq<Body>, x: Body)
    ensures Copies(b.(queues := b.queues[q := ms]), x) + (if q in b.queues then multiset(b.queues[q])[x] else 0)
            == Copies(b, x) + multiset(ms)[x]
  {
    SumUpdate(b.queues, q, ms, InQueue(x));
  }

  lemma TrackedCopies(c: Channel, queue: string, body: Body, redelivered: bool, x: Body)
    requires c.next !in c.unacked
    ensures InChannel(x)(Tracked(c, queue, body, redelivered)) == InChannel(x)(c) + (if body == x then 1 else 0)
  {
    SumUpdate(c.unacked, c.next, Unacked(queue, body, redelivered), IsBody(x));
  }

  lemma UntrackedCopies(c: Channel, tag: nat, x: Body)
    requires tag in c.unacked
    ensures InChannel(x)(Untracked(c, tag)) + (if c.unacked[tag].body == x then 1 else 0) == InChannel(x)(c)
  {
    SumRemove(c.unacked, tag, IsBody(x));
  }

  predicate Fresh(b: Broker, ch: nat) {
    ChannelOf(b, ch).next !in ChannelOf(b, ch).unacked
  }

  lemma DeclareCopies(b: Broker, ch: nat, name: string, x: Body)
    ensures Copies(AfterDeclare(b, ch, name), x) == Copies(b, x)
  {
    var b1 := b.(queues := if name in b.queues then b.queues else b.queues[name := []]);
    if name !in b.queues { QueueCopies(b, name, [], x); } else { assert b1 == b; }
    ChannelCopies(b1, ch, ChannelOf(b, ch).(bound := name), x);
  }

  lemma PublishCopies(b: Broker, ch: nat, key: string, body: Body, x: Body)
    ensures Copies(AfterPublish(b, ch, key, body), x)
            == Copies(b, x) + (if PublishResult(b, ch, key).Ok? && body == x then 1 else 0)
  {
    var q := Target(b, ch, key);
    if PublishResult(b, ch, key).Ok? { QueueCopies(b, q, b.queues[q] + [body], x); }
  }

  lemma AckCopies(b: Broker, ch: nat, tag: nat, x: Body)
    ensures Copies(AfterAck(b, ch, tag), x) + (if Known(b, ch, tag) && b.channels[ch].unacked[tag].body == x then 1 else 0)
            == Copies(b, x)
  {
    if Known(b, ch, tag) {
      UntrackedCopies(b.channels[ch], tag, x);
      ChannelCopies(b, ch, Untracked(b.channels[ch], tag), x);
    }
  }

  lemma NackCopies(b: Broker, ch: nat, tag: nat, x: Body)
    requires Known(b, ch, tag) && Fresh(b, ch) && b.channels[ch].unacked[tag].queue in b.queues
    ensures Copies(AfterNack(b, ch, tag), x) == Copies(b, x) + (if b.channels[ch].unacked[tag].body == x then 1 else 0)
  {
    var c := b.channels[ch];
    var u := c.unacked[tag];
    UntrackedCopies(c, tag, x);
    TrackedCopies(Untracked(c, tag), u.queue, u.body, true, x);
    QueueCopies(b, u.queue, b.queues[u.queue] + [u.body], x);
    ChannelCopies(b.(queues := b.queues[u.queue := b.queues[u.queue] + [u.body]]), ch, Tracked(Untracked(c, tag), u.queue, u.body, true), x);
  }

  lemma DeliverCopies(b: Broker, ch: nat, queue: string, body: Body, x: Body)
    requires Fresh(b, ch)
    ensures Copies(AfterDeliver(b, ch, queue, body), x) == Copies(b, x) + (if body == x then 1 else 0)
  {
    TrackedCopies(ChannelOf(b, ch), queue, body, false, x);
    ChannelCopies(b, ch, Tracked(ChannelOf(b, ch), queue, body, false), x);
  }

  lemma TakeAllCopies(b: Broker, ch: nat, queue: string, x: Body)
    requires queue in b.queues
    ensures Copies(AfterTakeAll(b, ch, queue), x) + multiset(b.queues[queue])[x] == Copies(b, x)
  {
    var c := ChannelOf(b, ch);
    QueueCopies(b, queue, [], x);
    ChannelCopies(b.(queues := b.queues[queue := []]), ch, if c.next == 0 then c.(next := 1) else c, x);
  }

  lemma RegisterCopies(b: Broker, ch: nat, consumer: string, x: Body)
    ensures Copies(AfterRegister(b, ch, consumer), x) == Copies(b, x)
  {
    ChannelCopies(b, ch, ChannelOf(b, ch).(consumer := consumer), x);
  }

  /** Copies in the broker and on their way together. */
  ghost function Held(s: State, x: Body): nat {
    Copies(s.broker, x) + AllOnTheirWay(s.threads, x)
  }

  lemma GoHeld(s: State, t: nat, b: Broker, thread: Thread, x: Body)
    requires t < |s.threads|
    requires Copies(b, x) + OnItsWay(thread, x) == Copies(s.broker, x) + OnItsWay(s.threads[t], x)
    ensures Held(Go(s, t, b, thread), x) == Held(s, x)
  {
    OnTheirWayUpdate(s.threads, t, thread, x);
  }

  lemma TakeAllHeld(s: State, t: nat, x: Body)
    requires t < |s.threads| && s.threads[t].Registered? && s.threads[t].queue in s.broker.queues
    ensures Held(StepThread(s, t), x) == Held(s, x)
  {
    var b := s.broker;
    var Registered(ch, queue) := s.threads[t];
    TakeAllCopies(b, ch, queue, x);
    GoHeld(s, t, AfterTakeAll(b, ch, queue), if b.queues[queue] == [] then Idle else Delivering(ch, queue, b.queues[queue]), x);
  }

  lemma DeliverHeld(s: State, t: nat, x: Body)
    requires t < |s.threads| && s.threads[t].Delivering? && Fresh(s.broker, s.threads[t].ch)
    ensures Held(StepThread(s, t), x) == Held(s, x)
  {
    var b := s.broker;
    var Delivering(ch, queue, rest) := s.threads[t];
    if rest == [] {
      GoHeld(s, t, b, Idle, x);
    } else {
      DeliverCopies(b, ch, queue, rest[0], x);
      assert rest == [rest[0]] + rest[1..];
      GoHeld(s, t, AfterDeliver(b, ch, queue, rest[0]), Delivering(ch, queue, rest[1..]), x);
    }
  }

  lemma StepThreadHeld(s: State, t: nat, x: Body)
    requires Inv(s) && t < |s.threads|
    ensures Held(StepThread(s, t), x) == Held(s, x)
  {
    assert ThreadInv(s.broker, s.threads[t]);
    match s.threads[t] {
      case Idle =>
      case Found(ch, queue, consumer) =>
        RegisterCopies(s.broker, ch, consumer, x);
        GoHeld(s, t, AfterRegister(s.broker, ch, consumer), Registered(ch, queue), x);
      case Registered(ch, queue) => TakeAllHeld(s, t, x);
      case Delivering(ch, queue, rest) =>
        DeliverHeld(s, t, x);
    }
  }

  /** The books: every copy is in a queue, on its way to a consumer, or unacknowledged. */
  ghost predicate Balanced(s: State, x: Body) {
    Held(s, x) + multiset(s.acked)[x] == multiset(s.published)[x] + multiset(s.requeued)[x]
  }

  lemma PublishBalanced(s: State, ch: nat, key: string, body: Body, x: Body)
    requires Balanced(s, x)
    ensures Balanced(Apply(s, Publish(ch, key, body)), x)
  {
    PublishCopies(s.broker, ch, key, body, x);
  }

  lemma AckBalanced(s: State, ch: nat, tag: nat, x: Body)
    requires Balanced(s, x)
    ensures Balanced(Apply(s, Ack(ch, tag)), x)
  {
    AckCopies(s.broker, ch, tag, x);
  }

  lemma NackBalanced(s: State, ch: nat, tag: nat, x: Body)
    requires Known(s.broker, ch, tag) && Fresh(s.broker, ch) && NackResult(s.broker, ch, tag).Ok? && Balanced(s, x)
    ensures Balanced(Apply(s, Nack(ch, tag)), x)
  {
    NackCopies(s.broker, ch, tag, x);
  }

  lemma NackFindsQueue(b: Broker, ch: nat, tag: nat)
    requires BrokerInv(b) && Known(b, ch, tag)
    ensures NackResult(b, ch, tag).Ok?
  {
  }

  lemma ConsumeBalanced(s: State, t: nat, ch: nat, queue: string, consumer: string, x: Body)
    requires Balanced(s, x)
    ensures Balanced(Apply(s, Consume(t, ch, queue, consumer)), x)
  {
    if t < |s.threads| && s.threads[t].Idle? {
      GoHeld(s, t, s.broker, Found(ch, queue, consumer), x);
    }
  }

  lemma DeclareBalanced(s: State, ch: nat, name: string, x: Body)
    requires Balanced(s, x)
    ensures Balanced(Apply(s, Declare(ch, name)), x)
  {
    DeclareCopies(s.broker, ch, name, x);
  }

  lemma ProceedBalanced(s: State, t: nat, x: Body)
    requires Inv(s) && Balanced(s, x)
    ensures Balanced(Apply(s, Proceed(t)), x)
  {
    if t < |s.threads| { StepThreadHeld(s, t, x); }
  }

  lemma NackKnownBalanced(s: State, ch: nat, tag: nat, x: Body)
    requires Inv(s) && Balanced(s, x)
    ensures Balanced(Apply(s, Nack(ch, tag)), x)
  {
    if Known(s.broker, ch, tag) {
      NackFindsQueue(s.broker, ch, tag);
      NackBalanced(s, ch, tag, x);
    }
  }

  lemma ApplyBalanced(s: State, a: Action, x: Body)
    requires Inv(s) && Balanced(s, x)
    ensures Balanced(Apply(s, a), x)
  {
    match a {
      case Declare(ch, name) => DeclareBalanced(s, ch, name, x);
      case Publish(ch, key, body) => PublishBalanced(s, ch, key, body, x);
      case Consume(t, ch, queue, consumer) => ConsumeBalanced(s, t, ch, queue, consumer, x);
      case Proceed(t) => ProceedBalanced(s, t, x);
      case Ack(ch, tag) => AckBalanced(s, ch, tag, x);
      case Nack(ch, tag) => NackKnownBalanced(s, ch, tag, x);
    }
  }

  lemma {:induction false} RunBalanced(threads: nat, actions: seq<Action>, x: Body)
    ensures Balanced(Run(threads, actions), x)
  {
    if actions == [] {
      NothingOnItsWay(Init(threads).threads, x);
    } else {
      var k := |actions| - 1;
      RunBalanced(threads, actions[..k], x);
      RunInv(threads, actions[..k]);
      ApplyBalanced(Run(threads, actions[..k]), actions[k], x);
    }
  }

  // ---------------------------------------------------------------------------------------------
  // Main results

  /**
   Over every run: each body is in queues, on its way, unacknowledged or acknowledged as often as it was published,
   plus the negative acknowledgements of it under known tags; CurrentlyUnacked is the size of
   the unacknowledged map; the tags of a channel rise strictly; and no negative acknowledgement misses its queue.
   */
  lemma Accounting(threads: nat, actions: seq<Action>, x: Body)
    ensures var s := Run(threads, actions);
            && Copies(s.broker, x) + AllOnTheirWay(s.threads, x) + multiset(s.acked)[x]
               == multiset(s.published)[x] + multiset(s.requeued)[x]
            && (forall ch :: ch in s.broker.channels ==>
                  && s.broker.channels[ch].count == |s.broker.channels[ch].unacked|
                  && (forall i, j :: 0 <= i < j < |s.broker.channels[ch].issued| ==>
                        s.broker.channels[ch].issued[i] < s.broker.channels[ch].issued[j]))
            && (forall ch, tag :: NackResult(s.broker, ch, tag) != Err(QueueNotFound))
  {
    var s := Run(threads, actions);
    RunInv(threads, actions);
    RunBalanced(threads, actions, x);
    forall ch, tag ensures NackResult(s.broker, ch, tag) != Err(QueueNotFound) {
      if Known(s.broker, ch, tag) { NackFindsQueue(s.broker, ch, tag); }
    }
  }

  function Issued(threads: nat, actions: seq<Action>, ch: nat): seq<nat> {
    ChannelOf(Run(threads, actions).broker, ch).issued
  }

  lemma IssuedGrows(threads: nat, actions: seq<Action>, a: Action, ch: nat)
    ensures Issued(threads, actions, ch) <= Issued(threads, actions + [a], ch)
  {
    RunInv(threads, actions);
    ApplyInv(Run(threads, actions), a);
    assert (actions + [a])[..|actions|] == actions;
  }

  /** The tags a channel has handed out stay handed out, in order: none is ever issued twice. */
  lemma {:induction false} TagsNeverReused(threads: nat, actions: seq<Action>, more: seq<Action>, ch: nat)
    ensures Issued(threads, actions, ch) <= Issued(threads, actions + more, ch)
  {
    if more == [] {
      assert actions + more == actions;
    } else {
      var k := |more| - 1;
      var before := actions + more[..k];
      TagsNeverReused(threads, actions, more[..k], ch);
      IssuedGrows(threads, before, more[k], ch);
      assert before + [more[k]] == actions + more;
    }
  }

  /**
   In every run a negative acknowledgement keeps the number of copies of every body exactly if its tag is unknown; under
   a known tag the message is requeued and also redelivered under a fresh tag, one copy more.
   */
  lemma NackDoublesExactly(threads: nat, actions: seq<Action>, ch: nat, tag: nat)
    ensures var b := Run(threads, actions).broker;
            && ((forall x :: Copies(AfterNack(b, ch, tag), x) == Copies(b, x)) <==> !Known(b, ch, tag))
            && (Known(b, ch, tag) ==>
                  var c, b' := b.channels[ch], AfterNack(b, ch, tag);
                  var u := c.unacked[tag];
                  && Copies(b', u.body) == Copies(b, u.body) + 1
                  && u.queue in b.queues && b'.queues[u.queue] == b.queues[u.queue] + [u.body]
                  && c.next !in c.unacked
                  && b'.channels[ch].unacked == (c.unacked - {tag})[c.next := Unacked(u.queue, u.body, true)])
  {
    var b := Run(threads, actions).broker;
    RunInv(threads, actions);
    if Known(b, ch, tag) {
      NackFindsQueue(b, ch, tag);
      NackCopies(b, ch, tag, b.channels[ch].unacked[tag].body);
    }
  }

  lemma {:induction false} DeliveriesNext(b: Broker, ch: nat, queue: string, bodies: seq<Body>)
    ensures ChannelOf(AfterDeliveries(b, ch, queue, bodies), ch).next == ChannelOf(b, ch).next + |bodies|
  {
    if bodies != [] { DeliveriesNext(b, ch, queue, bodies[..|bodies| - 1]); }
  }

  /** A consumer gets the backlog in queue order, under consecutive tags; what it already held under lower tags stays. */
  lemma {:induction false} DeliveredInOrder(b: Broker, ch: nat, queue: string, bodies: seq<Body>, tag: nat)
    ensures var c, c' := ChannelOf(b, ch), ChannelOf(AfterDeliveries(b, ch, queue, bodies), ch);
            && (c.next <= tag < c.next + |bodies| ==>
                  tag in c'.unacked && c'.unacked[tag] == Unacked(queue, bodies[tag - c.next], false))
            && (!(c.next <= tag < c.next + |bodies|) ==>
                  && (tag in c'.unacked <==> tag in c.unacked)
                  && (tag in c.unacked ==> c'.unacked[tag] == c.unacked[tag]))
  {
    if bodies != [] {
      DeliveredInOrder(b, ch, queue, bodies[..|bodies| - 1], tag);
      DeliveriesNext(b, ch, queue, bodies[..|bodies| - 1]);
    }
  }
}
