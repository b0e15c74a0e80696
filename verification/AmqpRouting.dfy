/** Which queue a message reaches (pkg/amqp/server.go), against the queue its sender meant. */
module AmqpRouting {
  import opened Endian
  import opened AmqpServer
  import Content = AmqpContent
  import Broker = AmqpBroker

  /** The messages that have a body frame. */
  function Bodied(ms: seq<Sent>): seq<Sent> {
    if ms == [] then []
    else
      var rest, m := Bodied(ms[..|ms| - 1]), ms[|ms| - 1];
      if m.pieces == [] then rest else rest + [m]
  }

  /** The message as the server reads it. */
  function Read(ch: nat): Sent -> Content.Message {
    (m: Sent) => Content.Whole(ch, ContentOf(m))
  }

  /** The message as its sender means it. */
  function Meant(ch: nat): Sent -> Content.Message {
    (m: Sent) => Content.Message(ch, Text(m.publish.exchange), Text(m.publish.key), Content.Joined(m.pieces))
  }

  function Each(f: Sent -> Content.Message, ms: seq<Sent>): (r: seq<Content.Message>)
    ensures |r| == |ms| && forall i :: 0 <= i < |ms| ==> r[i] == f(ms[i])
  {
    seq(|ms|, i requires 0 <= i < |ms| => f(ms[i]))
  }

  lemma EachLast(f: Sent -> Content.Message, ms: seq<Sent>, m: Sent)
    ensures Each(f, ms + [m]) == Each(f, ms) + [f(m)]
  {
  }

  lemma {:induction false} ArrivingIs(ch: nat, ms: seq<Sent>)
    ensures Arriving(ch, ms) == Each(Read(ch), Bodied(ms))
  {
    if ms != [] {
      var before, m := ms[..|ms| - 1], ms[|ms| - 1];
      ArrivingIs(ch, before);
      ArrivingLast(ch, ms);
      EachLast(Read(ch), Bodied(before), m);
    }
  }

  predicate Takes(b: Broker.Broker, q: string) {
    q != "" && q in b.queues
  }

  /**
   The message goes where it was meant to go: its layout is the server's own, or it has no key, or its key is the queue
   its channel is bound to, or neither that queue nor the one its key names is there.
   */
  predicate Right(b: Broker.Broker, ch: nat, m: Sent) {
    var key, bound := Text(m.publish.key), Broker.ChannelOf(b, ch).bound;
    m.layout.Own? || key == "" || key == bound || (!Takes(b, key) && !Takes(b, bound))
  }

  /** The same target for a standard message, exactly if it has no key or its key is the bound queue. */
  lemma SameTargetExactly(b: Broker.Broker, ch: nat, m: Sent)
    requires m.layout.Standard?
    ensures Broker.Target(b, ch, Read(ch)(m).key) == Broker.Target(b, ch, Meant(ch)(m).key)
            <==> m.publish.key == [] || Text(m.publish.key) == Broker.ChannelOf(b, ch).bound
  {
  }

  lemma SamePublish(b: Broker.Broker, b1: Broker.Broker, ch: nat, m: Sent)
    requires b1.channels == b.channels && b1.queues.Keys == b.queues.Keys && Right(b, ch, m)
    ensures AfterMessage(b1, Read(ch)(m)) == AfterMessage(b1, Meant(ch)(m))
  {
  }

  lemma {:induction false} AllRight(b: Broker.Broker, ch: nat, ms: seq<Sent>)
    requires forall i :: 0 <= i < |ms| ==> Right(b, ch, ms[i])
    ensures AfterMessages(b, Each(Read(ch), ms)) == AfterMessages(b, Each(Meant(ch), ms))
  {
    if ms != [] {
      var before, m := ms[..|ms| - 1], ms[|ms| - 1];
      AllRight(b, ch, before);
      assert ms == before + [m];
      EachLast(Read(ch), before, m);
      EachLast(Meant(ch), before, m);
      PublishedLast(b, Each(Read(ch), before), Read(ch)(m), Each(Read(ch), ms));
      PublishedLast(b, Each(Meant(ch), before), Meant(ch)(m), Each(Meant(ch), ms));
      QueuesAfter(b, Each(Read(ch), before), "q");
      SamePublish(b, AfterMessages(b, Each(Read(ch), before)), ch, m);
    }
  }

  predicate Goes(b: Broker.Broker, m: Content.Message, q: string) {
    Broker.Target(b, m.ch, m.key) == q
  }

  lemma BodiesLast(b: Broker.Broker, before: seq<Content.Message>, m: Content.Message, q: string, all: seq<Content.Message>)
    requires all == before + [m]
    ensures |BodiesFor(b, all, q)| == |BodiesFor(b, before, q)| + if Goes(b, m, q) then 1 else 0
  {
    assert all[..|before|] == before;
  }

  /** If of every message f's version goes to q only if g's does, and of the i-th only g's does, q gains fewer. */
  lemma {:induction false} Fewer(b: Broker.Broker, f: Sent -> Content.Message, g: Sent -> Content.Message, ms: seq<Sent>, q: string, i: int)
    requires forall j :: 0 <= j < |ms| && Goes(b, f(ms[j]), q) ==> Goes(b, g(ms[j]), q)
    requires 0 <= i < |ms| ==> !Goes(b, f(ms[i]), q) && Goes(b, g(ms[i]), q)
    ensures |BodiesFor(b, Each(f, ms), q)| + (if 0 <= i < |ms| then 1 else 0) <= |BodiesFor(b, Each(g, ms), q)|
  {
    if ms != [] {
      var before, m := ms[..|ms| - 1], ms[|ms| - 1];
      Fewer(b, f, g, before, q, i);
      assert ms == before + [m];
      EachLast(f, before, m);
      EachLast(g, before, m);
      BodiesLast(b, Each(f, before), f(m), q, Each(f, ms));
      BodiesLast(b, Each(g, before), g(m), q, Each(g, ms));
    }
  }

  /** One message that goes elsewhere shows in the queues. */
  lemma OneWrong(b: Broker.Broker, ch: nat, ms: seq<Sent>, i: nat)
    requires i < |ms| && !Right(b, ch, ms[i])
    ensures AfterMessages(b, Each(Read(ch), ms)) != AfterMessages(b, Each(Meant(ch), ms))
  {
    var key, bound := Text(ms[i].publish.key), Broker.ChannelOf(b, ch).bound;
    if Takes(b, key) {
      Fewer(b, Read(ch), Meant(ch), ms, key, i);
      QueuesAfter(b, Each(Read(ch), ms), key);
      QueuesAfter(b, Each(Meant(ch), ms), key);
    } else {
      Fewer(b, Meant(ch), Read(ch), ms, bound, i);
      QueuesAfter(b, Each(Read(ch), ms), bound);
      QueuesAfter(b, Each(Meant(ch), ms), bound);
    }
  }

  /**
   From the wire to the queues: what a client sends, in whatever layouts, leaves every queue as its sender means it if
   and only if every message with a body frame goes where it was meant to go.
   */
  lemma RoutedExactly(s: Server, l: Content.Link, ms: seq<Sent>)
    requires AllProper(l.ch, ms)
    ensures ServeBytes(s, l.conn, Wire(l.ch, ms)).broker == AfterMessages(s.broker, Each(Meant(l.ch), Bodied(ms)))
            <==> forall i :: 0 <= i < |Bodied(ms)| ==> Right(s.broker, l.ch, Bodied(ms)[i])
  {
    ServedAll(s, l, ms);
    ArrivingIs(l.ch, ms);
    if i :| 0 <= i < |Bodied(ms)| && !Right(s.broker, l.ch, Bodied(ms)[i]) {
      OneWrong(s.broker, l.ch, Bodied(ms), i);
    } else {
      AllRight(s.broker, l.ch, Bodied(ms));
    }
  }

  lemma ArrivingOne(ch: nat, m: Sent)
    requires m.pieces != []
    ensures Arriving(ch, [m]) == [Read(ch)(m)]
  {
    ArrivingIs(ch, [m]);
    assert Bodied([m]) == Bodied([m][..0]) + [m] == [m];
    assert Each(Read(ch), [m]) == [Read(ch)(m)];
  }

  lemma ServedAs(s: Server, l: Content.Link, ms: seq<Sent>, out: seq<Content.Message>)
    requires AllProper(l.ch, ms) && Arriving(l.ch, ms) == out
    ensures ServeBytes(s, l.conn, Wire(l.ch, ms)).broker == AfterMessages(s.broker, out)
  {
    ServedAll(s, l, ms);
  }

  lemma ServedOne(s: Server, l: Content.Link, m: Sent)
    requires Proper(l.ch, m) && m.pieces != []
    ensures ServeBytes(s, l.conn, Wire(l.ch, [m])).broker == AfterMessages(s.broker, [Read(l.ch)(m)])
  {
    ArrivingOne(l.ch, m);
    ServedAs(s, l, [m], [Read(l.ch)(m)]);
  }

  /** A standard message whose key names one queue, on a channel bound to another: it joins the other. */
  lemma Misrouted(s: Server, l: Content.Link, m: Sent)
    requires Proper(l.ch, m) && m.layout.Standard? && m.pieces != []
    requires var key, bound := Text(m.publish.key), Broker.ChannelOf(s.broker, l.ch).bound;
             key != bound && Takes(s.broker, key) && Takes(s.broker, bound)
    ensures var key, bound := Text(m.publish.key), Broker.ChannelOf(s.broker, l.ch).bound;
            var b' := ServeBytes(s, l.conn, Wire(l.ch, [m])).broker;
            && key in b'.queues && b'.queues[key] == s.broker.queues[key]
            && bound in b'.queues && b'.queues[bound] == s.broker.queues[bound] + [Broker.Body(Content.Joined(m.pieces))]
  {
    var key, bound := Text(m.publish.key), Broker.ChannelOf(s.broker, l.ch).bound;
    var out := Read(l.ch)(m);
    ServedOne(s, l, m);
    QueuesAfter(s.broker, [out], key);
    QueuesAfter(s.broker, [out], bound);
    OneBody(s.broker, out, key);
    OneBody(s.broker, out, bound);
    assert s.broker.queues[key] + [] == s.broker.queues[key];
  }

  lemma OneBody(b: Broker.Broker, m: Content.Message, q: string)
    ensures BodiesFor(b, [m], q) == if Goes(b, m, q) then [Broker.Body(m.body)] else []
  {
    assert [m][..0] == [];
  }

  /** Such a message: its key is "a", its channel is bound to "b". */
  lemma WrongQueue() returns (s: Server, m: Sent)
    ensures Proper(1, m) && m.layout.Standard? && Text(m.publish.key) == "a"
    ensures var b' := ServeBytes(s, 0, Wire(1, [m])).broker;
            "a" in b'.queues && b'.queues["a"] == [] && "b" in b'.queues && b'.queues["b"] == [Broker.Body([1])]
  {
    var channel := Broker.NEW_CHANNEL.(bound := "b");
    s := Server(map[], Broker.Broker(map["a" := [], "b" := []], map[1 := channel]));
    m := Sent(Standard, Publish([], [97]), [0], [0, 0, 0, 0], [], [Content.Piece([1])]);
    assert Text([97]) == "a";
    assert m.pieces[..0] == [] && Content.Joined(m.pieces) == [] + [1] == [1];
    Misrouted(s, Content.Link(0, 1), m);
  }
}
