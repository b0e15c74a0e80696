/** Several channels of several connections at once (pkg/amqp/server.go): from the bytes of each connection to the queues. */
module AmqpTraffic {
  import opened Endian
  import opened Streams
  import opened AmqpFrames
  import opened AmqpServer
  import Content = AmqpContent
  import Broker = AmqpBroker

  // ---------------------------------------------------------------------------------------------
  // What the queues should hold

  /** All messages sent with a body, sender by sender. */
  function SentAll(senders: seq<Content.Sender>): seq<Content.Message> {
    if senders == [] then []
    else
      var last := senders[|senders| - 1];
      SentAll(senders[..|senders| - 1]) + Content.WithBody(last.link.ch, last.contents)
  }

  lemma {:induction false} SentAllCount(senders: seq<Content.Sender>, m: Content.Message)
    ensures multiset(SentAll(senders))[m] == Content.SentCount(senders, m)
  {
    if senders != [] { SentAllCount(senders[..|senders| - 1], m); }
  }

  /** Every queue there is holds what it held and the bodies sent for it, each as often as it was sent. */
  ghost predicate QueuesHold(s: Server, arrivals: seq<Arrival>, senders: seq<Content.Sender>) {
    forall q :: q != "" && q in s.broker.queues ==> HoldsAll(s.broker, ServeAll(s, arrivals).broker, q, SentAll(senders))
  }

  ghost predicate HoldsAll(b: Broker.Broker, b': Broker.Broker, q: string, sent: seq<Content.Message>)
    requires q in b.queues
  {
    q in b'.queues && multiset(b'.queues[q]) == multiset(b.queues[q]) + multiset(BodiesFor(b, sent, q))
  }

  lemma {:induction false} BodiesConcat(b: Broker.Broker, x: seq<Content.Message>, y: seq<Content.Message>, q: string)
    ensures BodiesFor(b, x + y, q) == BodiesFor(b, x, q) + BodiesFor(b, y, q)
  {
    if y == [] {
      assert x + y == x;
    } else {
      var z, m := y[..|y| - 1], y[|y| - 1];
      BodiesConcat(b, x, z, q);
      assert (x + y)[..|x + y| - 1] == x + z;
      assert BodiesFor(b, x, q) + BodiesFor(b, z, q) + [Broker.Body(m.body)] == BodiesFor(b, x, q) + (BodiesFor(b, z, q) + [Broker.Body(m.body)]);
    }
  }

  lemma OneTakenOut(b: Broker.Broker, x: seq<Content.Message>, m: Content.Message, y: seq<Content.Message>, q: string)
    ensures multiset(BodiesFor(b, x + [m] + y, q)) == multiset(BodiesFor(b, x + y, q)) + multiset(BodiesFor(b, [m], q))
  {
    BodiesConcat(b, x + [m], y, q);
    BodiesConcat(b, x, [m], q);
    BodiesConcat(b, x, y, q);
  }

  lemma Without(b: Broker.Broker, x: seq<Content.Message>, m: Content.Message, q: string) returns (rest: seq<Content.Message>)
    requires m in x
    ensures |rest| == |x| - 1 && multiset(x) == multiset(rest) + multiset{m}
    ensures multiset(BodiesFor(b, x, q)) == multiset(BodiesFor(b, rest, q)) + multiset(BodiesFor(b, [m], q))
  {
    var i :| 0 <= i < |x| && x[i] == m;
    rest := x[..i] + x[i + 1..];
    assert x == x[..i] + [m] + x[i + 1..];
    OneTakenOut(b, x[..i], m, x[i + 1..], q);
  }

  lemma Cancelled(a: multiset<Content.Message>, b: multiset<Content.Message>, m: Content.Message)
    requires a + multiset{m} == b + multiset{m}
    ensures a == b
  {
    assert a == a + multiset{m} - multiset{m};
    assert b == b + multiset{m} - multiset{m};
  }

  /** The bodies for a queue do not depend on the order of the messages, but for their own order. */
  lemma {:induction false} SameBodies(b: Broker.Broker, x: seq<Content.Message>, y: seq<Content.Message>, q: string)
    requires multiset(x) == multiset(y)
    ensures multiset(BodiesFor(b, x, q)) == multiset(BodiesFor(b, y, q))
    decreases |x|
  {
    if x == [] {
      assert |multiset(y)| == |y|;
    } else {
      var m := x[0];
      assert m in multiset(x);
      var x' := Without(b, x, m, q);
      var y' := Without(b, y, m, q);
      Cancelled(multiset(x'), multiset(y'), m);
      SameBodies(b, x', y', q);
    }
  }

  lemma HoldIfArrived(s: Server, arrivals: seq<Arrival>, senders: seq<Content.Sender>)
    requires Content.Arrived(s.channels, EventsOf(arrivals), senders)
    ensures QueuesHold(s, arrivals, senders)
  {
    var out := Content.Assembled(s.channels, EventsOf(arrivals)).out;
    ServeIsPublish(s, arrivals);
    assert multiset(out) == multiset(SentAll(senders)) by {
      forall m ensures multiset(out)[m] == multiset(SentAll(senders))[m] { SentAllCount(senders, m); }
    }
    forall q | q != "" && q in s.broker.queues ensures HoldsAll(s.broker, ServeAll(s, arrivals).broker, q, SentAll(senders)) {
      QueuesAfter(s.broker, out, q);
      SameBodies(s.broker, out, SentAll(senders), q);
    }
  }

  // ---------------------------------------------------------------------------------------------
  // When the queues hold it

  /** Frames that fit the wire and carry, in some order, what the senders send over these channels. */
  ghost predicate Carried(links: seq<Content.Link>, arrivals: seq<Arrival>, senders: seq<Content.Sender>) {
    Content.SentOver(links, EventsOf(arrivals), senders) && forall i :: 0 <= i < |arrivals| ==> Fits(arrivals[i].frame)
  }

  const MINE: Bytes := [109, 105, 110, 101]
  const YOURS: Bytes := [121, 111, 117, 114, 115]

  /** A message of one byte. */
  function Short(key: Bytes): Sent {
    Sent(Own, Publish([], key), [], [0, 0, 0, 0], [], [Content.Piece([1])])
  }

  lemma ShortProper(ch: nat, key: Bytes)
    requires ch < 0x1_0000 && |key| < 16
    ensures Proper(ch, Short(key)) && ContentOf(Short(key)) == Content.Short(Text(key))
  {
    var m := Short(key);
    Content.ShortFrames(Content.Link(0, ch), Text(key));
    assert Text([]) == "";
    assert |MethodPayload(m)| == 6 + |key|;
  }

  function StartFrames(ch: nat, key: Bytes): seq<Frame>
    requires ch < 0x1_0000 && |key| < 16
  {
    ShortProper(ch, key);
    OpeningFrames(ch, Short(key))[..1]
  }

  function RestFrames(ch: nat, key: Bytes): seq<Frame>
    requires ch < 0x1_0000 && |key| < 16
  {
    [Frame(HEADER, ch, Content.HeaderPayload(Content.Short(Text(key))))] + [Frame(BODY, ch, [1])]
  }

  lemma StartIs(l: Content.Link, key: Bytes)
    requires l.ch < 0x1_0000 && |key| < 16
    ensures EventsOf(Over(l.conn, StartFrames(l.ch, key))) == Content.Opener(l, Text(key))
  {
    ShortProper(l.ch, key);
    StartEvents(l, Short(key));
  }

  lemma RestIs(l: Content.Link, key: Bytes)
    requires l.ch < 0x1_0000 && |key| < 16
    ensures EventsOf(Over(l.conn, RestFrames(l.ch, key))) == Content.Rest(l, Text(key))
  {
    var frames := RestFrames(l.ch, key);
    EventsLast([], Arrival(l.conn, frames[0]), Over(l.conn, frames[..1]));
    EventsLast(Over(l.conn, frames[..1]), Arrival(l.conn, frames[1]), Over(l.conn, frames));
  }

  function CrossedFrames(mine: Content.Link, yours: Content.Link): seq<Arrival>
    requires mine.ch < 0x1_0000 && yours.ch < 0x1_0000
  {
    Over(mine.conn, StartFrames(mine.ch, MINE)) + Over(yours.conn, StartFrames(yours.ch, YOURS))
    + Over(mine.conn, RestFrames(mine.ch, MINE)) + Over(yours.conn, RestFrames(yours.ch, YOURS))
  }

  lemma FourEvents(a: seq<Arrival>, b: seq<Arrival>, c: seq<Arrival>, d: seq<Arrival>)
    ensures EventsOf(a + b + c + d) == EventsOf(a) + EventsOf(b) + EventsOf(c) + EventsOf(d)
  {
    EventsConcat(a + b + c, d);
    EventsConcat(a + b, c);
    EventsConcat(a, b);
  }

  lemma CrossedIs(mine: Content.Link, yours: Content.Link)
    requires mine.ch < 0x1_0000 && yours.ch < 0x1_0000
    ensures EventsOf(CrossedFrames(mine, yours)) == Content.Crossed(mine, yours)
  {
    assert Text(MINE) == "mine" && Text(YOURS) == "yours";
    StartIs(mine, MINE);
    StartIs(yours, YOURS);
    RestIs(mine, MINE);
    RestIs(yours, YOURS);
    FourEvents(Over(mine.conn, StartFrames(mine.ch, MINE)), Over(yours.conn, StartFrames(yours.ch, YOURS)),
               Over(mine.conn, RestFrames(mine.ch, MINE)), Over(yours.conn, RestFrames(yours.ch, YOURS)));
  }

  lemma FramesFit(ch: nat, key: Bytes)
    requires ch < 0x1_0000 && |key| < 16
    ensures forall i :: 0 <= i < |StartFrames(ch, key)| ==> Fits(StartFrames(ch, key)[i])
    ensures forall i :: 0 <= i < |RestFrames(ch, key)| ==> Fits(RestFrames(ch, key)[i])
  {
    ShortProper(ch, key);
  }

  lemma CrossedFit(mine: Content.Link, yours: Content.Link)
    requires mine.ch < 0x1_0000 && yours.ch < 0x1_0000
    ensures var arrivals := CrossedFrames(mine, yours); forall i :: 0 <= i < |arrivals| ==> Fits(arrivals[i].frame)
  {
    FramesFit(mine.ch, MINE);
    FramesFit(yours.ch, YOURS);
  }

  /** A server with these two queues. */
  const TWO_QUEUES: Server := Server(map[], Broker.Broker(map["mine" := [], "yours" := []], map[]))

  lemma {:induction false} InBodies(b: Broker.Broker, ms: seq<Content.Message>, m: Content.Message, q: string)
    requires m in ms && Broker.Target(b, m.ch, m.key) == q
    ensures BodiesFor(b, ms, q) != []
  {
    if m != ms[|ms| - 1] { InBodies(b, ms[..|ms| - 1], m, q); }
  }

  /** Two connections on one channel number: the queue of the first sender's message stays empty. */
  lemma SharedChannelLoses(links: seq<Content.Link>, i: nat, j: nat)
    requires i < |links| && j < |links| && i != j && Content.AllDistinct(links) && links[i].ch == links[j].ch < 0x1_0000
    ensures Carried(links, CrossedFrames(links[i], links[j]), Content.TwoSenders(links, i, j))
    ensures !QueuesHold(TWO_QUEUES, CrossedFrames(links[i], links[j]), Content.TwoSenders(links, i, j))
  {
    var arrivals, senders := CrossedFrames(links[i], links[j]), Content.TwoSenders(links, i, j);
    CrossedIs(links[i], links[j]);
    CrossedFit(links[i], links[j]);
    Content.SharedChannelMixes(links, i, j);
    ServeIsPublish(TWO_QUEUES, arrivals);
    QueueStaysEmpty(links[j].ch);
    MineSent(links, i, j);
    assert !HoldsAll(TWO_QUEUES.broker, ServeAll(TWO_QUEUES, arrivals).broker, "mine", SentAll(senders));
  }

  lemma QueueStaysEmpty(ch: nat)
    ensures var b' := AfterMessages(TWO_QUEUES.broker, [Content.Message(ch, "", "yours", [1])]); "mine" in b'.queues && b'.queues["mine"] == []
  {
    var out := [Content.Message(ch, "", "yours", [1])];
    QueuesAfter(TWO_QUEUES.broker, out, "mine");
    assert out[..0] == [] && BodiesFor(TWO_QUEUES.broker, out, "mine") == [];
  }

  lemma MineSent(links: seq<Content.Link>, i: nat, j: nat)
    requires i < |links|
    ensures BodiesFor(TWO_QUEUES.broker, SentAll(Content.TwoSenders(links, i, j)), "mine") != []
  {
    var senders, m := Content.TwoSenders(links, i, j), Content.Message(links[i].ch, "", "mine", [1]);
    Content.ShortFrames(links[i], "mine");
    Content.SentAtLeast(senders, i, m);
    SentAllCount(senders, m);
    InBodies(TWO_QUEUES.broker, SentAll(senders), m, "mine");
  }

  /**
   For any channels of any connections: on every server, in every interleaving of the frames of any messages, every queue
   there is ends up with all the bodies sent for it, each as often as it was sent, if and only if no two connections use
   the same channel number.
   */
  lemma QueuesExactly(links: seq<Content.Link>)
    requires Content.AllDistinct(links) && forall i :: 0 <= i < |links| ==> links[i].ch < 0x1_0000
    ensures (forall s, arrivals, senders :: Carried(links, arrivals, senders) ==> QueuesHold(s, arrivals, senders))
            <==> Content.NoneShared(links)
  {
    if Content.NoneShared(links) {
      forall s, arrivals, senders | Carried(links, arrivals, senders) ensures QueuesHold(s, arrivals, senders) {
        Content.AllArrive(links, s.channels, EventsOf(arrivals), senders);
        HoldIfArrived(s, arrivals, senders);
      }
    } else {
      var i, j :| 0 <= i < |links| && 0 <= j < |links| && links[i].conn != links[j].conn && links[i].ch == links[j].ch;
      SharedChannelLoses(links, i, j);
    }
  }

  // ---------------------------------------------------------------------------------------------
  // From the bytes of each connection

  datatype Client = Client(link: Content.Link, sent: seq<Sent>)

  ghost predicate ClientsProper(clients: seq<Client>) {
    forall j :: 0 <= j < |clients| ==> AllProper(clients[j].link.ch, clients[j].sent)
  }

  function SendersOf(clients: seq<Client>): (senders: seq<Content.Sender>)
    ensures |senders| == |clients|
    ensures forall j :: 0 <= j < |clients| ==> senders[j] == Content.Sender(clients[j].link, ContentsOf(clients[j].sent))
  {
    seq(|clients|, j requires 0 <= j < |clients| => Content.Sender(clients[j].link, ContentsOf(clients[j].sent)))
  }

  function OnChannel(frames: seq<Frame>, ch: nat): seq<Frame> {
    if frames == [] then []
    else
      var rest, f := OnChannel(frames[..|frames| - 1], ch), frames[|frames| - 1];
      if f.channel == ch then rest + [f] else rest
  }

  function FramesFrom(arrivals: seq<Arrival>, conn: nat): seq<Frame> {
    if arrivals == [] then []
    else
      var rest, a := FramesFrom(arrivals[..|arrivals| - 1], conn), arrivals[|arrivals| - 1];
      if a.conn == conn then rest + [a.frame] else rest
  }

  ghost predicate SomeLink(clients: seq<Client>, conn: nat, ch: nat) {
    exists j :: 0 <= j < |clients| && clients[j].link == Content.Link(conn, ch)
  }

  /** What each connection writes: the frames of its channels, mixed in any order that keeps each channel's own. */
  ghost predicate Writes(written: nat -> seq<Frame>, clients: seq<Client>)
    requires ClientsProper(clients)
  {
    && (forall conn: nat, i :: 0 <= i < |written(conn)| ==> Fits(written(conn)[i]) && SomeLink(clients, conn, written(conn)[i].channel))
    && (forall j :: 0 <= j < |clients| ==>
          OnChannel(written(clients[j].link.conn), clients[j].link.ch) == AllFramesOf(clients[j].link.ch, clients[j].sent))
  }

  /** The frames that the server's connection handlers read from the bytes, in any order that keeps each connection's own. */
  ghost predicate Reads(arrivals: seq<Arrival>, written: nat -> seq<Frame>) {
    WireIsInverse();
    forall conn: nat :: FramesFrom(arrivals, conn) == ReadAll(ReadFrame, WriteAll(WriteFrame, written(conn))).items
  }

  lemma OverLast(conn: nat, frames: seq<Frame>, f: Frame)
    ensures Over(conn, frames + [f]) == Over(conn, frames) + [Arrival(conn, f)]
  {
  }

  /** The frames of a channel of a connection, out of all arrivals. */
  function FramesOn(arrivals: seq<Arrival>, l: Content.Link): seq<Frame> {
    OnChannel(FramesFrom(arrivals, l.conn), l.ch)
  }

  lemma FramesOnLast(before: seq<Arrival>, a: Arrival, all: seq<Arrival>, l: Content.Link)
    requires all == before + [a]
    ensures FramesOn(all, l) == if a.conn == l.conn && a.frame.channel == l.ch then FramesOn(before, l) + [a.frame] else FramesOn(before, l)
  {
    assert all[..|before|] == before;
    var rest := FramesFrom(before, l.conn);
    assert (rest + [a.frame])[..|rest|] == rest;
  }

  lemma OfLinkLast(events: seq<Content.Event>, e: Content.Event, l: Content.Link)
    ensures Content.OfLink(events + [e], l) == if Content.On(e, l) then Content.OfLink(events, l) + [e] else Content.OfLink(events, l)
  {
    assert (events + [e])[..|events|] == events;
    assert Content.OfLink(events, l) + [] == Content.OfLink(events, l);
  }

  /** The events of a channel of a connection are those of its frames. */
  lemma {:induction false} EventsOnLink(arrivals: seq<Arrival>, l: Content.Link)
    ensures Content.OfLink(EventsOf(arrivals), l) == EventsOf(Over(l.conn, FramesOn(arrivals, l)))
  {
    if arrivals != [] {
      var before, a := arrivals[..|arrivals| - 1], arrivals[|arrivals| - 1];
      EventsOnLink(before, l);
      assert arrivals == before + [a];
      EventsLast(before, a, arrivals);
      FramesOnLast(before, a, arrivals, l);
      EventKeepsLink(a);
      if EventOf(a.conn, a.frame).Some? { OfLinkLast(EventsOf(before), EventOf(a.conn, a.frame).value, l); }
      if a.conn == l.conn && a.frame.channel == l.ch { OneMoreOver(l.conn, FramesOn(before, l), a.frame, FramesOn(arrivals, l)); }
    }
  }

  lemma EventKeepsLink(a: Arrival)
    ensures EventOf(a.conn, a.frame).Some? ==> EventOf(a.conn, a.frame).value.conn == a.conn && EventOf(a.conn, a.frame).value.ch == a.frame.channel
  {
  }

  lemma OneMoreOver(conn: nat, frames: seq<Frame>, f: Frame, all: seq<Frame>)
    requires all == frames + [f]
    ensures EventsOf(Over(conn, all)) == match EventOf(conn, f)
                                         case None => EventsOf(Over(conn, frames))
                                         case Some(e) => EventsOf(Over(conn, frames)) + [e]
  {
    OverLast(conn, frames, f);
    EventsLast(Over(conn, frames), Arrival(conn, f), Over(conn, all));
  }

  /** Every frame that arrives was written by its connection. */
  lemma {:induction false} FromSome(arrivals: seq<Arrival>, i: nat)
    requires i < |arrivals|
    ensures exists k :: 0 <= k < |FramesFrom(arrivals, arrivals[i].conn)| && FramesFrom(arrivals, arrivals[i].conn)[k] == arrivals[i].frame
  {
    var before, a, conn := arrivals[..|arrivals| - 1], arrivals[|arrivals| - 1], arrivals[i].conn;
    if i == |before| {
      assert FramesFrom(arrivals, conn)[|FramesFrom(before, conn)|] == a.frame;
    } else {
      FromSome(before, i);
      var k :| 0 <= k < |FramesFrom(before, conn)| && FramesFrom(before, conn)[k] == arrivals[i].frame;
      assert FramesFrom(arrivals, conn)[k] == arrivals[i].frame;
    }
  }

  lemma {:induction false} EventsOnLinks(arrivals: seq<Arrival>, clients: seq<Client>)
    requires forall i :: 0 <= i < |arrivals| ==> SomeLink(clients, arrivals[i].conn, arrivals[i].frame.channel)
    ensures forall i :: 0 <= i < |EventsOf(arrivals)| ==> SomeLink(clients, EventsOf(arrivals)[i].conn, EventsOf(arrivals)[i].ch)
  {
    if arrivals != [] {
      EventsOnLinks(arrivals[..|arrivals| - 1], clients);
    }
  }

  /** The bytes of each connection are read back as they were written. */
  lemma ReadBack(arrivals: seq<Arrival>, written: nat -> seq<Frame>, clients: seq<Client>, conn: nat)
    requires ClientsProper(clients) && Writes(written, clients) && Reads(arrivals, written)
    ensures FramesFrom(arrivals, conn) == written(conn)
  {
    Stream(written(conn), 0);
  }

  lemma ArrivesOnSomeLink(arrivals: seq<Arrival>, written: nat -> seq<Frame>, clients: seq<Client>, i: nat)
    requires ClientsProper(clients) && Writes(written, clients) && Reads(arrivals, written) && i < |arrivals|
    ensures SomeLink(clients, arrivals[i].conn, arrivals[i].frame.channel)
  {
    ReadBack(arrivals, written, clients, arrivals[i].conn);
    FromSome(arrivals, i);
  }

  lemma ClientCarried(arrivals: seq<Arrival>, c: Client)
    requires AllProper(c.link.ch, c.sent) && FramesOn(arrivals, c.link) == AllFramesOf(c.link.ch, c.sent)
    ensures Content.OfLink(EventsOf(arrivals), c.link) == Content.AllFrames(c.link, ContentsOf(c.sent))
  {
    EventsOnLink(arrivals, c.link);
    AllEvents(c.link, c.sent);
  }

  lemma FromSender(e: Content.Event, clients: seq<Client>)
    requires SomeLink(clients, e.conn, e.ch)
    ensures Content.OfSome(e, SendersOf(clients))
  {
    var j :| 0 <= j < |clients| && clients[j].link == Content.Link(e.conn, e.ch);
    assert Content.On(e, SendersOf(clients)[j].link);
  }

  lemma SendersSendable(clients: seq<Client>)
    requires ClientsProper(clients)
    ensures Content.AllSendable(SendersOf(clients))
  {
    var senders := SendersOf(clients);
    forall j | 0 <= j < |senders| ensures forall i :: 0 <= i < |senders[j].contents| ==> Content.Sendable(senders[j].contents[i]) {
      AllEvents(clients[j].link, clients[j].sent);
    }
  }

  lemma WireCarries(arrivals: seq<Arrival>, written: nat -> seq<Frame>, clients: seq<Client>)
    requires ClientsProper(clients) && Writes(written, clients) && Reads(arrivals, written)
    ensures Content.Interleaves(EventsOf(arrivals), SendersOf(clients))
  {
    forall i | 0 <= i < |arrivals| ensures SomeLink(clients, arrivals[i].conn, arrivals[i].frame.channel) {
      ArrivesOnSomeLink(arrivals, written, clients, i);
    }
    EventsOnLinks(arrivals, clients);
    var senders, events := SendersOf(clients), EventsOf(arrivals);
    forall i | 0 <= i < |events| ensures Content.OfSome(events[i], senders) {
      FromSender(events[i], clients);
    }
    forall j | 0 <= j < |senders| ensures Content.OfLink(events, senders[j].link) == Content.AllFrames(senders[j].link, senders[j].contents) {
      ReadBack(arrivals, written, clients, clients[j].link.conn);
      ClientCarried(arrivals, clients[j]);
    }
  }

  /**
   From the wire to the queues, for any number of connections with any number of channels, no channel number being used
   by two of them: whatever bytes the connections write and in whatever order their frames are served, every queue there
   is gains all the bodies sent for it, each as often as it was sent, and the messages of each channel are published
   whole and in the order they were sent.
   */
  lemma EndToEndMany(s: Server, clients: seq<Client>, written: nat -> seq<Frame>, arrivals: seq<Arrival>) returns (out: seq<Content.Message>)
    requires ClientsProper(clients) && Writes(written, clients) && Reads(arrivals, written)
    requires forall i, j :: 0 <= i < j < |clients| ==> clients[i].link.ch != clients[j].link.ch
    ensures QueuesHold(s, arrivals, SendersOf(clients))
    ensures ServeAll(s, arrivals).broker == AfterMessages(s.broker, out)
    ensures forall j :: 0 <= j < |clients| ==>
              Content.MessagesOf(out, clients[j].link.ch) == Arriving(clients[j].link.ch, clients[j].sent)
  {
    var senders, events := SendersOf(clients), EventsOf(arrivals);
    WireCarries(arrivals, written, clients);
    SendersSendable(clients);
    forall m ensures multiset(Content.Assembled(s.channels, events).out)[m] == Content.SentCount(senders, m) {
      Content.ArrivesOnce(s.channels, events, senders, m);
    }
    HoldIfArrived(s, arrivals, senders);
    ServeIsPublish(s, arrivals);
    out := Content.Assembled(s.channels, events).out;
    forall j | 0 <= j < |clients|
      ensures Content.MessagesOf(out, clients[j].link.ch) == Arriving(clients[j].link.ch, clients[j].sent)
    {
      Content.OwnChannel(s.channels, events, senders, j);
    }
  }
}
