/**
 From bytes to queues (pkg/amqp/server.go): the frames of open connections are read, parsed, put together to messages
 and published. Of the method frames only Basic.Publish is modelled; the others leave this state alone.
 */
module AmqpServer {
  import opened Endian
  import opened Streams
  import opened AmqpFrames
  import Content = AmqpContent
  import Broker = AmqpBroker

  const METHOD: nat := 1
  const HEADER: nat := 2
  const BODY: nat := 3

  // ---------------------------------------------------------------------------------------------
  // Parsing

  datatype Option<T> = None | Some(value: T)

  function Text(bytes: Bytes): (text: string)
    ensures |text| == |bytes|
  {
    seq(|bytes|, i requires 0 <= i < |bytes| => bytes[i] as char)
  }

  datatype Publish = Publish(exchange: Bytes, key: Bytes)

  /** The payload of a Basic.Publish method: after class and method, two strings, each with its length in front. */
  function ParsePublish(payload: Bytes): Option<Publish> {
    if |payload| < 6 then None
    else
      var exchange: nat := payload[4];
      var pos := 5 + exchange;
      if |payload| < pos + 1 then None
      else
        var key: nat := payload[pos];
        var end := pos + 1 + key;
        if |payload| < end then None else Some(Publish(payload[5..pos], payload[pos + 1..end]))
  }

  predicate IsPublish(payload: Bytes) {
    |payload| >= 4 && Decode(payload[0..2]) == 60 && Decode(payload[2..4]) == 40
  }

  function EventOf(conn: nat, f: Frame): Option<Content.Event> {
    if f.kind == METHOD then
      if !IsPublish(f.payload) then None
      else
        match ParsePublish(f.payload)
        case None => None
        case Some(p) => Some(Content.Start(conn, f.channel, Text(p.exchange), Text(p.key)))
    else if f.kind == HEADER then Some(Content.Header(conn, f.channel, f.payload))
    else if f.kind == BODY then Some(Content.Body(conn, f.channel, f.payload))
    else None
  }

  const PUBLISH: Bytes := [0, 60, 0, 40]

  /** What this server takes for a Basic.Publish method; flags is whatever comes after. */
  function PublishPayload(p: Publish, flags: Bytes): Bytes
    requires |p.exchange| < 256 && |p.key| < 256
  {
    PUBLISH + [|p.exchange|] + p.exchange + [|p.key|] + p.key + flags
  }

  lemma PublishParts(p: Publish, flags: Bytes)
    requires |p.exchange| < 256 && |p.key| < 256
    ensures var bytes, pos := PublishPayload(p, flags), 5 + |p.exchange|;
            && |bytes| == 6 + |p.exchange| + |p.key| + |flags| && bytes[..4] == PUBLISH
            && bytes[4] == |p.exchange| && bytes[5..pos] == p.exchange
            && bytes[pos] == |p.key| && bytes[pos + 1..pos + 1 + |p.key|] == p.key
  {
  }

  lemma PublishCode(payload: Bytes)
    requires |payload| >= 4 && payload[..4] == PUBLISH
    ensures IsPublish(payload)
  {
    assert payload[0..2] == [0, 60] && payload[2..4] == [0, 40];
    assert Decode([0, 60]) == 60 && Decode([0, 40]) == 40 by {
      assert [0, 60][..1] == [0] && [0, 40][..1] == [0] && [0][..0] == [];
    }
  }

  lemma PublishParsed(p: Publish, flags: Bytes)
    requires |p.exchange| < 256 && |p.key| < 256
    ensures IsPublish(PublishPayload(p, flags)) && ParsePublish(PublishPayload(p, flags)) == Some(p)
  {
    PublishParts(p, flags);
    PublishCode(PublishPayload(p, flags));
  }

  /** The method as section 1.8.3.7 of the AMQP 0-9-1 reference lays it out: a reserved short integer comes first. */
  function StandardPayload(p: Publish, flags: Bytes): Bytes
    requires |p.exchange| < 256 && |p.key| < 256
  {
    PUBLISH + [0, 0] + [|p.exchange|] + p.exchange + [|p.key|] + p.key + flags
  }

  /** Of a standard Basic.Publish the server reads no exchange and no routing key, unless there are none. */
  lemma StandardReadExactly(p: Publish, flags: Bytes)
    requires |p.exchange| < 256 && |p.key| < 256
    ensures ParsePublish(StandardPayload(p, flags)) == Some(Publish([], []))
    ensures ParsePublish(StandardPayload(p, flags)) == Some(p) <==> p.exchange == [] && p.key == []
  {
    var bytes := StandardPayload(p, flags);
    assert bytes[4] == 0 && bytes[5] == 0;
    assert bytes[5..5] == [] && bytes[6..6] == [];
  }

  // ---------------------------------------------------------------------------------------------
  // Serving

  datatype Server = Server(channels: map<nat, Content.Pending>, broker: Broker.Broker)

  /** A frame read from a connection. */
  datatype Arrival = Arrival(conn: nat, frame: Frame)

  function AfterMessage(b: Broker.Broker, m: Content.Message): Broker.Broker {
    Broker.AfterPublish(b, m.ch, m.key, Broker.Body(m.body))
  }

  function AfterMessages(b: Broker.Broker, ms: seq<Content.Message>): Broker.Broker {
    if ms == [] then b else AfterMessage(AfterMessages(b, ms[..|ms| - 1]), ms[|ms| - 1])
  }

  /** One frame: what it completes is published at once. */
  function Serve(s: Server, a: Arrival): Server {
    match EventOf(a.conn, a.frame)
    case None => s
    case Some(e) =>
      var p := Content.PendingAt(s.channels, e.ch);
      Server(s.channels[e.ch := Content.Next(p, e)], AfterMessages(s.broker, Content.Completed(p, e)))
  }

  function ServeAll(s: Server, arrivals: seq<Arrival>): Server {
    if arrivals == [] then s else Serve(ServeAll(s, arrivals[..|arrivals| - 1]), arrivals[|arrivals| - 1])
  }

  /** The events among the frames. */
  function EventsOf(arrivals: seq<Arrival>): seq<Content.Event> {
    if arrivals == [] then []
    else
      var before, a := EventsOf(arrivals[..|arrivals| - 1]), arrivals[|arrivals| - 1];
      match EventOf(a.conn, a.frame)
      case None => before
      case Some(e) => before + [e]
  }

  lemma {:induction false} Published(b: Broker.Broker, a: seq<Content.Message>, c: seq<Content.Message>)
    ensures AfterMessages(b, a + c) == AfterMessages(AfterMessages(b, a), c)
  {
    if c == [] {
      assert a + c == a;
    } else {
      var d, m := c[..|c| - 1], c[|c| - 1];
      Published(b, a, d);
      assert a + c == a + d + [m];
      PublishedLast(b, a + d, m, a + c);
    }
  }

  lemma PublishedLast(b: Broker.Broker, before: seq<Content.Message>, m: Content.Message, all: seq<Content.Message>)
    requires all == before + [m]
    ensures AfterMessages(b, all) == AfterMessage(AfterMessages(b, before), m)
  {
    assert all[..|before|] == before;
  }

  lemma OneMoreAssembled(channels: map<nat, Content.Pending>, events: seq<Content.Event>, e: Content.Event)
    ensures Content.Assembled(channels, events + [e]) == Content.Handled(Content.Assembled(channels, events), e)
  {
    assert (events + [e])[..|events|] == events;
  }

  /** Serving frames, of whatever connections, is putting their messages together and publishing these in order. */
  lemma {:induction false} ServeIsPublish(s: Server, arrivals: seq<Arrival>)
    ensures var a := Content.Assembled(s.channels, EventsOf(arrivals));
            ServeAll(s, arrivals) == Server(a.channels, AfterMessages(s.broker, a.out))
  {
    if arrivals != [] {
      var before, last := arrivals[..|arrivals| - 1], arrivals[|arrivals| - 1];
      ServeIsPublish(s, before);
      var events := EventsOf(before);
      var a := Content.Assembled(s.channels, events);
      match EventOf(last.conn, last.frame) {
        case None =>
        case Some(e) =>
          OneMoreAssembled(s.channels, events, e);
          Published(s.broker, a.out, Content.Completed(Content.PendingAt(a.channels, e.ch), e));
      }
    }
  }

  // ---------------------------------------------------------------------------------------------
  // What ends up in a queue

  /** The bodies of the messages that go to queue q. */
  function BodiesFor(b: Broker.Broker, ms: seq<Content.Message>, q: string): seq<Broker.Body> {
    if ms == [] then []
    else
      var rest, m := BodiesFor(b, ms[..|ms| - 1], q), ms[|ms| - 1];
      if Broker.Target(b, m.ch, m.key) == q then rest + [Broker.Body(m.body)] else rest
  }

  /** Each existing queue gains exactly the bodies meant for it, in order; no queue is made, and no channel changes. */
  lemma {:induction false} QueuesAfter(b: Broker.Broker, ms: seq<Content.Message>, q: string)
    requires q != ""
    ensures var b' := AfterMessages(b, ms);
            && b'.channels == b.channels && b'.queues.Keys == b.queues.Keys
            && (q in b.queues ==> b'.queues[q] == b.queues[q] + BodiesFor(b, ms, q))
  {
    if ms == [] {
      if q in b.queues { assert b.queues[q] + [] == b.queues[q]; }
    } else {
      var k := |ms| - 1;
      QueuesAfter(b, ms[..k], q);
      PublishOne(b, AfterMessages(b, ms[..k]), ms[k], q);
    }
  }

  lemma PublishOne(b: Broker.Broker, b1: Broker.Broker, m: Content.Message, q: string)
    requires q != "" && b1.channels == b.channels && b1.queues.Keys == b.queues.Keys
    ensures var b' := AfterMessage(b1, m);
            && b'.channels == b.channels && b'.queues.Keys == b.queues.Keys
            && (q in b.queues ==>
                  b'.queues[q] == if Broker.Target(b, m.ch, m.key) == q then b1.queues[q] + [Broker.Body(m.body)] else b1.queues[q])
  {
  }

  // ---------------------------------------------------------------------------------------------
  // A client

  /** How a client lays out its Basic.Publish: as this server expects it, or as the standard has it. */
  datatype Layout = Own | Standard

  datatype Sent = Sent(layout: Layout, publish: Publish, flags: Bytes, head: Bytes, properties: Bytes, pieces: seq<Content.Piece>)

  function MethodPayload(m: Sent): Bytes
    requires |m.publish.exchange| < 256 && |m.publish.key| < 256
  {
    if m.layout.Own? then PublishPayload(m.publish, m.flags) else StandardPayload(m.publish, m.flags)
  }

  /** What the server reads. */
  function AsRead(m: Sent): Publish {
    if m.layout.Own? then m.publish else Publish([], [])
  }

  function ContentOf(m: Sent): Content.Content {
    Content.Content(Text(AsRead(m).exchange), Text(AsRead(m).key), m.head, m.properties, m.pieces)
  }

  predicate Proper(ch: nat, m: Sent) {
    && ch < 0x1_0000 && |m.publish.exchange| < 256 && |m.publish.key| < 256 && Content.Sendable(ContentOf(m))
    && |MethodPayload(m)| <= MAX_FRAME && |Content.HeaderPayload(ContentOf(m))| <= MAX_FRAME
    && (forall i :: 0 <= i < |m.pieces| ==> |m.pieces[i].bytes| <= MAX_FRAME)
  }

  ghost predicate AllProper(ch: nat, ms: seq<Sent>) {
    forall i :: 0 <= i < |ms| ==> Proper(ch, ms[i])
  }

  function BodyFrames(ch: nat, pieces: seq<Content.Piece>): (frames: seq<Frame>)
    ensures |frames| == |pieces|
  {
    if pieces == [] then []
    else BodyFrames(ch, pieces[..|pieces| - 1]) + [Frame(BODY, ch, pieces[|pieces| - 1].bytes)]
  }

  function OpeningFrames(ch: nat, m: Sent): (frames: seq<Frame>)
    requires Proper(ch, m)
    ensures |frames| == 2
  {
    [Frame(METHOD, ch, MethodPayload(m)), Frame(HEADER, ch, Content.HeaderPayload(ContentOf(m)))]
  }

  function FramesOf(ch: nat, m: Sent): (frames: seq<Frame>)
    requires Proper(ch, m)
    ensures |frames| == 2 + |m.pieces|
  {
    OpeningFrames(ch, m) + BodyFrames(ch, m.pieces)
  }

  function AllFramesOf(ch: nat, ms: seq<Sent>): seq<Frame>
    requires AllProper(ch, ms)
  {
    if ms == [] then [] else AllFramesOf(ch, ms[..|ms| - 1]) + FramesOf(ch, ms[|ms| - 1])
  }

  function ContentsOf(ms: seq<Sent>): (cs: seq<Content.Content>)
    ensures |cs| == |ms|
  {
    if ms == [] then [] else ContentsOf(ms[..|ms| - 1]) + [ContentOf(ms[|ms| - 1])]
  }

  /** Frames that come over one connection. */
  function Over(conn: nat, frames: seq<Frame>): (arrivals: seq<Arrival>)
    ensures |arrivals| == |frames|
  {
    seq(|frames|, i requires 0 <= i < |frames| => Arrival(conn, frames[i]))
  }

  lemma Regroup(a: seq<Content.Event>, b: seq<Content.Event>, c: seq<Content.Event>)
    ensures a + b + c == a + (b + c)
  {
  }

  lemma {:induction false} EventsConcat(a: seq<Arrival>, b: seq<Arrival>)
    ensures EventsOf(a + b) == EventsOf(a) + EventsOf(b)
  {
    if b == [] {
      assert a + b == a;
    } else {
      var c, last := b[..|b| - 1], b[|b| - 1];
      EventsConcat(a, c);
      assert a + b == a + c + [last];
      EventsLast(a + c, last, a + b);
      EventsLast(c, last, b);
      if EventOf(last.conn, last.frame).Some? { Regroup(EventsOf(a), EventsOf(c), [EventOf(last.conn, last.frame).value]); }
    }
  }

  lemma EventsLast(before: seq<Arrival>, a: Arrival, all: seq<Arrival>)
    requires all == before + [a]
    ensures EventsOf(all) == match EventOf(a.conn, a.frame) case None => EventsOf(before) case Some(e) => EventsOf(before) + [e]
  {
    assert all[..|before|] == before;
  }

  lemma OverConcat(conn: nat, a: seq<Frame>, b: seq<Frame>)
    ensures Over(conn, a + b) == Over(conn, a) + Over(conn, b)
  {
  }

  lemma {:induction false} BodyEvents(l: Content.Link, pieces: seq<Content.Piece>)
    ensures EventsOf(Over(l.conn, BodyFrames(l.ch, pieces))) == Content.Bodies(l, pieces)
  {
    if pieces != [] {
      var k := |pieces| - 1;
      BodyEvents(l, pieces[..k]);
      var before, f := BodyFrames(l.ch, pieces[..k]), Frame(BODY, l.ch, pieces[k].bytes);
      EventsLast(Over(l.conn, before), Arrival(l.conn, f), Over(l.conn, before + [f]));
    }
  }

  lemma MethodRead(conn: nat, ch: nat, m: Sent)
    requires Proper(ch, m)
    ensures EventOf(conn, Frame(METHOD, ch, MethodPayload(m))) == Some(Content.Start(conn, ch, ContentOf(m).exchange, ContentOf(m).key))
  {
    if m.layout.Own? {
      PublishParsed(m.publish, m.flags);
    } else {
      StandardReadExactly(m.publish, m.flags);
      PublishCode(StandardPayload(m.publish, m.flags));
    }
  }

  lemma StartEvents(l: Content.Link, m: Sent)
    requires Proper(l.ch, m)
    ensures EventsOf(Over(l.conn, OpeningFrames(l.ch, m)[..1])) == Content.Opening(l, ContentOf(m))[..1]
  {
    var f := OpeningFrames(l.ch, m)[0];
    MethodRead(l.conn, l.ch, m);
    EventsLast([], Arrival(l.conn, f), Over(l.conn, OpeningFrames(l.ch, m)[..1]));
  }

  lemma OpeningEvents(l: Content.Link, m: Sent)
    requires Proper(l.ch, m)
    ensures EventsOf(Over(l.conn, OpeningFrames(l.ch, m))) == Content.Opening(l, ContentOf(m))
  {
    var frames := OpeningFrames(l.ch, m);
    StartEvents(l, m);
    EventsLast(Over(l.conn, frames[..1]), Arrival(l.conn, frames[1]), Over(l.conn, frames));
  }

  lemma {:induction false} BodyFramesPrefix(ch: nat, pieces: seq<Content.Piece>, k: nat)
    requires k <= |pieces|
    ensures BodyFrames(ch, pieces)[..k] == BodyFrames(ch, pieces[..k])
  {
    if k < |pieces| {
      BodyFramesPrefix(ch, pieces[..|pieces| - 1], k);
      assert pieces[..|pieces| - 1][..k] == pieces[..k];
    } else {
      assert pieces[..k] == pieces;
    }
  }

  /** The first frames of a message carry its first events. */
  lemma FirstEvents(l: Content.Link, m: Sent, k: nat)
    requires Proper(l.ch, m) && k <= |m.pieces|
    ensures EventsOf(Over(l.conn, FramesOf(l.ch, m)[..2 + k])) == Content.Opening(l, ContentOf(m)) + Content.Bodies(l, m.pieces[..k])
  {
    var bodies := BodyFrames(l.ch, m.pieces[..k]);
    BodyFramesPrefix(l.ch, m.pieces, k);
    assert FramesOf(l.ch, m)[..2 + k] == OpeningFrames(l.ch, m) + bodies;
    OverConcat(l.conn, OpeningFrames(l.ch, m), bodies);
    EventsConcat(Over(l.conn, OpeningFrames(l.ch, m)), Over(l.conn, bodies));
    OpeningEvents(l, m);
    BodyEvents(l, m.pieces[..k]);
  }

  /** The frames of a message carry the events of the message. */
  lemma SentEvents(l: Content.Link, m: Sent)
    requires Proper(l.ch, m)
    ensures EventsOf(Over(l.conn, FramesOf(l.ch, m))) == Content.Frames(l, ContentOf(m))
  {
    FirstEvents(l, m, |m.pieces|);
    assert FramesOf(l.ch, m)[..2 + |m.pieces|] == FramesOf(l.ch, m) && m.pieces[..|m.pieces|] == m.pieces;
  }

  lemma {:induction false} AllEvents(l: Content.Link, ms: seq<Sent>)
    requires AllProper(l.ch, ms)
    ensures EventsOf(Over(l.conn, AllFramesOf(l.ch, ms))) == Content.AllFrames(l, ContentsOf(ms))
    ensures forall i :: 0 <= i < |ms| ==> Content.Sendable(ContentsOf(ms)[i])
  {
    if ms != [] {
      var k := |ms| - 1;
      AllEvents(l, ms[..k]);
      SentEvents(l, ms[k]);
      OverConcat(l.conn, AllFramesOf(l.ch, ms[..k]), FramesOf(l.ch, ms[k]));
      EventsConcat(Over(l.conn, AllFramesOf(l.ch, ms[..k])), Over(l.conn, FramesOf(l.ch, ms[k])));
      assert ContentsOf(ms)[..k] == ContentsOf(ms[..k]);
    }
  }

  lemma {:induction false} AllFit(ch: nat, ms: seq<Sent>)
    requires AllProper(ch, ms)
    ensures forall i :: 0 <= i < |AllFramesOf(ch, ms)| ==> Fits(AllFramesOf(ch, ms)[i])
  {
    if ms != [] {
      var k := |ms| - 1;
      AllFit(ch, ms[..k]);
      BodiesFit(ch, ms[k].pieces);
    }
  }

  lemma {:induction false} BodiesFit(ch: nat, pieces: seq<Content.Piece>)
    requires ch < 0x1_0000 && forall i :: 0 <= i < |pieces| ==> |pieces[i].bytes| <= MAX_FRAME
    ensures forall i :: 0 <= i < |BodyFrames(ch, pieces)| ==> Fits(BodyFrames(ch, pieces)[i])
  {
    if pieces != [] { BodiesFit(ch, pieces[..|pieces| - 1]); }
  }

  // ---------------------------------------------------------------------------------------------
  // One channel of one connection

  lemma {:induction false} OnLink(l: Content.Link, contents: seq<Content.Content>)
    ensures forall i :: 0 <= i < |Content.AllFrames(l, contents)| ==> Content.On(Content.AllFrames(l, contents)[i], l)
  {
    if contents != [] {
      OnLink(l, contents[..|contents| - 1]);
      BodiesOnLink(l, contents[|contents| - 1].pieces);
    }
  }

  lemma {:induction false} BodiesOnLink(l: Content.Link, pieces: seq<Content.Piece>)
    ensures forall i :: 0 <= i < |Content.Bodies(l, pieces)| ==> Content.On(Content.Bodies(l, pieces)[i], l)
  {
    if pieces != [] { BodiesOnLink(l, pieces[..|pieces| - 1]); }
  }

  /** The messages that arrive: those that have a body frame. */
  function Arriving(ch: nat, ms: seq<Sent>): seq<Content.Message> {
    Content.WithBody(ch, ContentsOf(ms))
  }

  lemma AssembledAll(channels: map<nat, Content.Pending>, l: Content.Link, ms: seq<Sent>)
    requires AllProper(l.ch, ms)
    ensures Content.Assembled(channels, EventsOf(Over(l.conn, AllFramesOf(l.ch, ms)))).out == Arriving(l.ch, ms)
  {
    AllEvents(l, ms);
    OnLink(l, ContentsOf(ms));
    Content.OneChannelOnly(channels, Content.AllFrames(l, ContentsOf(ms)), l.ch);
    Content.ManyContents(Content.Slot(Content.PendingAt(channels, l.ch), []), l, ContentsOf(ms));
    assert [] + Arriving(l.ch, ms) == Arriving(l.ch, ms);
  }

  function Wire(ch: nat, ms: seq<Sent>): Bytes
    requires AllProper(ch, ms)
  {
    WriteAll(WriteFrame, AllFramesOf(ch, ms))
  }

  /** A server that reads these bytes from a connection. */
  function ServeBytes(s: Server, conn: nat, bytes: Bytes): Server {
    WireIsInverse();
    ServeAll(s, Over(conn, ReadAll(ReadFrame, bytes).items))
  }

  lemma ServedAll(s: Server, l: Content.Link, ms: seq<Sent>)
    requires AllProper(l.ch, ms)
    ensures ServeBytes(s, l.conn, Wire(l.ch, ms)).broker == AfterMessages(s.broker, Arriving(l.ch, ms))
  {
    var frames := AllFramesOf(l.ch, ms);
    AllFit(l.ch, ms);
    Stream(frames, 0);
    ServeIsPublish(s, Over(l.conn, frames));
    AssembledAll(s.channels, l, ms);
  }

  /**
   From the wire to the queues: what a client sends over a connection, cut into body frames in any way, is in the
   queues afterwards. Every queue there is holds, behind what it held, the bodies of the messages for it that have a
   body frame, each whole and in order; nothing else changes in the broker.
   */
  lemma EndToEnd(s: Server, l: Content.Link, ms: seq<Sent>, q: string)
    requires AllProper(l.ch, ms) && q != ""
    ensures var b, b' := s.broker, ServeBytes(s, l.conn, Wire(l.ch, ms)).broker;
            && b'.channels == b.channels && b'.queues.Keys == b.queues.Keys
            && (q in b.queues ==> b'.queues[q] == b.queues[q] + BodiesFor(b, Arriving(l.ch, ms), q))
  {
    ServedAll(s, l, ms);
    QueuesAfter(s.broker, Arriving(l.ch, ms), q);
  }

  // ---------------------------------------------------------------------------------------------
  // A connection that breaks

  /** The message's first h frames hold all of its body. */
  predicate BodyWithin(m: Sent, h: int) {
    && m.pieces != [] && 2 < h
    && (2 + |m.pieces| <= h || |Content.Joined(m.pieces[..h - 2])| == |Content.Joined(m.pieces)|)
  }

  /** How many messages have all of their body within the first g frames. */
  function Within(ch: nat, ms: seq<Sent>, g: nat): nat
    requires AllProper(ch, ms)
  {
    if ms == [] then 0
    else
      var before, m := ms[..|ms| - 1], ms[|ms| - 1];
      Within(ch, before, g) + (if BodyWithin(m, g - |AllFramesOf(ch, before)|) then 1 else 0)
  }

  lemma {:induction false} AllWithin(ch: nat, ms: seq<Sent>, g: nat)
    requires AllProper(ch, ms) && |AllFramesOf(ch, ms)| <= g
    ensures Within(ch, ms, g) == |Arriving(ch, ms)|
  {
    if ms != [] {
      AllWithin(ch, ms[..|ms| - 1], g);
      assert ContentsOf(ms)[..|ms| - 1] == ContentsOf(ms[..|ms| - 1]);
    }
  }

  lemma StartOut(s: Content.Slot, l: Content.Link, m: Sent)
    requires Proper(l.ch, m)
    ensures Content.Feed(s, EventsOf(Over(l.conn, FramesOf(l.ch, m)[..1]))).out == s.out
  {
    var e := Content.Opening(l, ContentOf(m))[0];
    StartEvents(l, m);
    assert FramesOf(l.ch, m)[..1] == OpeningFrames(l.ch, m)[..1];
    assert Content.Opening(l, ContentOf(m))[..1] == [e];
    Content.FedOne(s, e);
    Content.NothingMore(s.out);
  }

  lemma SomeOut(s: Content.Slot, l: Content.Link, m: Sent, k: nat)
    requires Proper(l.ch, m) && k <= |m.pieces|
    ensures Content.Feed(s, EventsOf(Over(l.conn, FramesOf(l.ch, m)[..2 + k]))).out
            == if BodyWithin(m, 2 + k) then s.out + [Content.Whole(l.ch, ContentOf(m))] else s.out
  {
    FirstEvents(l, m, k);
    Content.PublishedWith(s, l, ContentOf(m), k);
    if k == |m.pieces| { assert m.pieces[..k] == m.pieces; }
  }

  /** What the first h frames of a message bring out. */
  lemma FirstOut(s: Content.Slot, l: Content.Link, m: Sent, h: nat)
    requires Proper(l.ch, m) && 0 < h <= 2 + |m.pieces|
    ensures Content.Feed(s, EventsOf(Over(l.conn, FramesOf(l.ch, m)[..h]))).out
            == if BodyWithin(m, h) then s.out + [Content.Whole(l.ch, ContentOf(m))] else s.out
  {
    if h == 1 { StartOut(s, l, m); } else { SomeOut(s, l, m, h - 2); }
  }

  /** What the frames of some messages and the first h frames of another bring out. */
  lemma NextUpTo(s: Content.Slot, l: Content.Link, before: seq<Sent>, m: Sent, h: nat, frames: seq<Frame>)
    requires AllProper(l.ch, before) && Proper(l.ch, m) && 0 < h <= 2 + |m.pieces|
    requires frames == AllFramesOf(l.ch, before) + FramesOf(l.ch, m)[..h]
    ensures Content.Feed(s, EventsOf(Over(l.conn, frames))).out
            == s.out + (if BodyWithin(m, h) then Arriving(l.ch, before) + [Content.Whole(l.ch, ContentOf(m))] else Arriving(l.ch, before))
  {
    var first, some := AllFramesOf(l.ch, before), FramesOf(l.ch, m)[..h];
    OverConcat(l.conn, first, some);
    EventsConcat(Over(l.conn, first), Over(l.conn, some));
    AllEvents(l, before);
    var events := Content.AllFrames(l, ContentsOf(before));
    Content.Split(s, events, EventsOf(Over(l.conn, some)));
    Content.ManyContents(s, l, ContentsOf(before));
    FirstOut(Content.Feed(s, events), l, m, h);
    Content.Grouped(s.out, Arriving(l.ch, before), [Content.Whole(l.ch, ContentOf(m))]);
  }

  /** The first n of the arriving messages, n being how many have their body within the first g frames. */
  function Reached(ch: nat, ms: seq<Sent>, g: nat): seq<Content.Message>
    requires AllProper(ch, ms)
  {
    if Within(ch, ms, g) <= |Arriving(ch, ms)| then Arriving(ch, ms)[..Within(ch, ms, g)] else []
  }

  lemma ReachedLast(ch: nat, ms: seq<Sent>, g: nat)
    requires ms != [] && AllProper(ch, ms)
    requires Within(ch, ms[..|ms| - 1], g) <= |Arriving(ch, ms[..|ms| - 1])|
    ensures Within(ch, ms, g) <= |Arriving(ch, ms)|
    ensures var before, m := ms[..|ms| - 1], ms[|ms| - 1];
            var h := g - |AllFramesOf(ch, before)|;
            if h <= 0 then Reached(ch, ms, g) == Reached(ch, before, g)
            else Reached(ch, ms, g) == if BodyWithin(m, h) then Arriving(ch, before) + [Content.Whole(ch, ContentOf(m))] else Arriving(ch, before)
  {
    var before, m := ms[..|ms| - 1], ms[|ms| - 1];
    var h := g - |AllFramesOf(ch, before)|;
    if h > 0 { AllWithin(ch, before, g); }
    ArrivingLast(ch, ms);
    OneMoreReached(Arriving(ch, before), Content.Whole(ch, ContentOf(m)), Arriving(ch, ms), m.pieces != [], BodyWithin(m, h), Within(ch, before, g));
  }

  lemma OneMoreReached(
    a: seq<Content.Message>, m: Content.Message, all: seq<Content.Message>, some: bool, within: bool, n: nat)
    requires all == if some then a + [m] else a
    requires n <= |a| && (within ==> some && n == |a|)
    ensures n + (if within then 1 else 0) <= |all|
    ensures all[..n + (if within then 1 else 0)] == if within then a + [m] else a[..n]
    ensures n == |a| ==> a[..n] == a
  {
  }

  lemma FirstFrames(ch: nat, ms: seq<Sent>, g: nat)
    requires ms != [] && AllProper(ch, ms) && g <= |AllFramesOf(ch, ms)|
    ensures var before, m := ms[..|ms| - 1], ms[|ms| - 1];
            var h := g - |AllFramesOf(ch, before)|;
            AllFramesOf(ch, ms)[..g] == if h <= 0 then AllFramesOf(ch, before)[..g] else AllFramesOf(ch, before) + FramesOf(ch, m)[..h]
  {
  }

  lemma {:induction false} WithinAtMost(ch: nat, ms: seq<Sent>, g: nat)
    requires AllProper(ch, ms)
    ensures Within(ch, ms, g) <= |Arriving(ch, ms)|
  {
    if ms != [] {
      WithinAtMost(ch, ms[..|ms| - 1], g);
      ReachedLast(ch, ms, g);
    }
  }

  /** The events of the first g frames, fed to a channel, bring out exactly the messages whose body they hold. */
  lemma {:induction false} OutUpTo(s: Content.Slot, l: Content.Link, ms: seq<Sent>, g: nat)
    requires AllProper(l.ch, ms) && g <= |AllFramesOf(l.ch, ms)|
    ensures Content.Feed(s, EventsOf(Over(l.conn, AllFramesOf(l.ch, ms)[..g]))).out == s.out + Reached(l.ch, ms, g)
  {
    if ms == [] {
      assert s.out + [] == s.out;
    } else {
      var before, m := ms[..|ms| - 1], ms[|ms| - 1];
      FirstFrames(l.ch, ms, g);
      WithinAtMost(l.ch, before, g);
      ReachedLast(l.ch, ms, g);
      if g <= |AllFramesOf(l.ch, before)| {
        OutUpTo(s, l, before, g);
      } else {
        NextUpTo(s, l, before, m, g - |AllFramesOf(l.ch, before)|, AllFramesOf(l.ch, ms)[..g]);
      }
    }
  }

  lemma ArrivingLast(ch: nat, ms: seq<Sent>)
    requires ms != []
    ensures var before, m := ms[..|ms| - 1], ms[|ms| - 1];
            Arriving(ch, ms) == if m.pieces == [] then Arriving(ch, before) else Arriving(ch, before) + [Content.Whole(ch, ContentOf(m))]
  {
    assert ContentsOf(ms)[..|ms| - 1] == ContentsOf(ms[..|ms| - 1]);
  }

  lemma {:induction false} EventsOnLink(l: Content.Link, ms: seq<Sent>, g: nat)
    requires AllProper(l.ch, ms) && g <= |AllFramesOf(l.ch, ms)|
    ensures var events := EventsOf(Over(l.conn, AllFramesOf(l.ch, ms)[..g])); forall i :: 0 <= i < |events| ==> events[i].ch == l.ch
  {
    var all := AllFramesOf(l.ch, ms);
    assert all == all[..g] + all[g..];
    OverConcat(l.conn, all[..g], all[g..]);
    EventsConcat(Over(l.conn, all[..g]), Over(l.conn, all[g..]));
    AllEvents(l, ms);
    OnLink(l, ContentsOf(ms));
    var some, rest := EventsOf(Over(l.conn, all[..g])), EventsOf(Over(l.conn, all[g..]));
    forall i | 0 <= i < |some| ensures some[i].ch == l.ch {
      assert (some + rest)[i] == some[i];
    }
  }

  /**
   If the connection breaks anywhere, even within a frame, exactly those messages are published whose whole body lies in
   frames that end before the cut, each whole and in order.
   */
  lemma BrokenConnection(s: Server, l: Content.Link, ms: seq<Sent>, cut: nat)
    requires AllProper(l.ch, ms) && cut <= |Wire(l.ch, ms)|
    ensures var n := Within(l.ch, ms, Whole(WriteFrame, AllFramesOf(l.ch, ms), cut));
            && n <= |Arriving(l.ch, ms)|
            && ServeBytes(s, l.conn, Wire(l.ch, ms)[..cut]).broker == AfterMessages(s.broker, Arriving(l.ch, ms)[..n])
  {
    var frames := AllFramesOf(l.ch, ms);
    var g := Whole(WriteFrame, frames, cut);
    AllFit(l.ch, ms);
    Stream(frames, cut);
    WireIsInverse();
    ServeIsPublish(s, Over(l.conn, frames[..g]));
    EventsOnLink(l, ms, g);
    Content.OneChannelOnly(s.channels, EventsOf(Over(l.conn, frames[..g])), l.ch);
    OutUpTo(Content.Slot(Content.PendingAt(s.channels, l.ch), []), l, ms, g);
    WithinAtMost(l.ch, ms, g);
    assert [] + Reached(l.ch, ms, g) == Reached(l.ch, ms, g);
  }
}
