/**
 Putting AMQP messages together from their frames (pkg/amqp/server.go): a Basic.Publish method opens a pending message
 on its channel, a content header gives the body size, body frames fill it up.
 */
module AmqpContent {
  import opened Endian

  datatype Pending = Nothing | Pending(exchange: string, key: string, size: nat, body: Bytes)

  /** A frame comes over some connection, which the server does not look at: pending messages are kept by channel number. */
  datatype Event =
    | Start(conn: nat, ch: nat, exchange: string, key: string)
    | Header(conn: nat, ch: nat, payload: Bytes)
    | Body(conn: nat, ch: nat, payload: Bytes)

  datatype Message = Message(ch: nat, exchange: string, key: string, body: Bytes)

  // ---------------------------------------------------------------------------------------------
  // One channel

  function Next(p: Pending, e: Event): Pending {
    match e
    case Start(_, _, exchange, key) => Pending(exchange, key, 0, [])
    case Header(_, _, payload) =>
      if |payload| < 12 || p.Nothing? then p else p.(size := Decode(payload[4..12]), body := [])
    case Body(_, _, payload) =>
      if p.Nothing? || |p.body + payload| >= p.size then Nothing else p.(body := p.body + payload)
  }

  /** The message an event completes, if any. */
  function Completed(p: Pending, e: Event): seq<Message> {
    if e.Body? && p.Pending? && |p.body + e.payload| >= p.size
    then [Message(e.ch, p.exchange, p.key, p.body + e.payload)] else []
  }

  /** A channel: what is pending, and the messages completed so far. */
  datatype Slot = Slot(pending: Pending, out: seq<Message>)

  const EMPTY := Slot(Nothing, [])

  function Fed(s: Slot, e: Event): Slot {
    Slot(Next(s.pending, e), s.out + Completed(s.pending, e))
  }

  function Feed(s: Slot, events: seq<Event>): Slot {
    if events == [] then s else Fed(Feed(s, events[..|events| - 1]), events[|events| - 1])
  }

  // ---------------------------------------------------------------------------------------------
  // All channels together

  /** What is pending on each channel, and the messages completed so far, in order. */
  datatype Assembly = Assembly(channels: map<nat, Pending>, out: seq<Message>)

  function PendingAt(channels: map<nat, Pending>, ch: nat): Pending {
    if ch in channels then channels[ch] else Nothing
  }

  function Handled(a: Assembly, e: Event): Assembly {
    var p := PendingAt(a.channels, e.ch);
    Assembly(a.channels[e.ch := Next(p, e)], a.out + Completed(p, e))
  }

  /** What some events make of what is pending. */
  function Assembled(channels: map<nat, Pending>, events: seq<Event>): Assembly {
    if events == [] then Assembly(channels, []) else Handled(Assembled(channels, events[..|events| - 1]), events[|events| - 1])
  }

  class Assembler {
    var channels: map<nat, Pending>

    constructor ()
      ensures channels == map[]
    {
      channels := map[];
    }

    method HandleFrame(e: Event) returns (ok: bool, out: seq<Message>)
      modifies this
      ensures ok == !(e.Header? && |e.payload| < 12)
      ensures out == Completed(PendingAt(old(channels), e.ch), e)
      ensures PendingAt(channels, e.ch) == Next(PendingAt(old(channels), e.ch), e)
      ensures forall ch :: ch != e.ch ==> PendingAt(channels, ch) == PendingAt(old(channels), ch)
    {
      ok, out := true, [];
      match e {
        case Start(_, ch, exchange, key) =>
          channels := channels[ch := Pending(exchange, key, 0, [])];
        case Header(_, ch, payload) =>
          if |payload| < 12 {
            return false, [];
          }
          if ch in channels && channels[ch].Pending? {
            channels := channels[ch := channels[ch].(size := Decode(payload[4..12]), body := [])];
          }
        case Body(_, ch, payload) =>
          if ch in channels && channels[ch].Pending? {
            var p := channels[ch];
            p := p.(body := p.body + payload);
            channels := channels[ch := p];
            if |p.body| >= p.size {
              channels := channels[ch := Nothing];
              out := [Message(ch, p.exchange, p.key, p.body)];
            }
          }
      }
    }

    /** Any frames of any channels and connections, one after another. */
    method HandleFrames(events: seq<Event>) returns (out: seq<Message>)
      modifies this
      ensures out == Assembled(old(channels), events).out
      ensures forall ch :: PendingAt(channels, ch) == PendingAt(Assembled(old(channels), events).channels, ch)
    {
      out := [];
      for i := 0 to |events|
        invariant out == Assembled(old(channels), events[..i]).out
        invariant forall ch :: PendingAt(channels, ch) == PendingAt(Assembled(old(channels), events[..i]).channels, ch)
      {
        assert events[..i + 1][..i] == events[..i];
        var ok, completed := HandleFrame(events[i]);
        out := out + completed;
      }
      assert events[..|events|] == events;
    }
  }

  function OfChannel(events: seq<Event>, ch: nat): seq<Event> {
    if events == [] then []
    else OfChannel(events[..|events| - 1], ch) + (if events[|events| - 1].ch == ch then [events[|events| - 1]] else [])
  }

  function MessagesOf(messages: seq<Message>, ch: nat): seq<Message> {
    if messages == [] then []
    else MessagesOf(messages[..|messages| - 1], ch) + (if messages[|messages| - 1].ch == ch then [messages[|messages| - 1]] else [])
  }

  lemma NothingMore(out: seq<Message>)
    ensures out + [] == out
  {
  }

  lemma OneMoreOut(out: seq<Message>, m: Message, ch: nat)
    ensures MessagesOf(out + [m], ch) == if m.ch == ch then MessagesOf(out, ch) + [m] else MessagesOf(out, ch)
  {
    assert (out + [m])[..|out|] == out;
  }

  /** What a channel shows of an assembly. */
  function View(a: Assembly, ch: nat): Slot {
    Slot(PendingAt(a.channels, ch), MessagesOf(a.out, ch))
  }

  lemma OneMoreOn(a: Assembly, e: Event, ch: nat)
    ensures View(Handled(a, e), ch) == if e.ch == ch then Fed(View(a, ch), e) else View(a, ch)
  {
    var p := PendingAt(a.channels, e.ch);
    NothingMore(a.out);
    NothingMore(MessagesOf(a.out, ch));
    if Completed(p, e) != [] { OneMoreOut(a.out, Completed(p, e)[0], ch); }
  }

  lemma OneMoreOnChannel(s: Slot, events: seq<Event>, ch: nat)
    requires events != []
    ensures var before, e := events[..|events| - 1], events[|events| - 1];
            Feed(s, OfChannel(events, ch)) == if e.ch == ch then Fed(Feed(s, OfChannel(before, ch)), e) else Feed(s, OfChannel(before, ch))
  {
    var own, e := OfChannel(events[..|events| - 1], ch), events[|events| - 1];
    if e.ch == ch {
      assert (own + [e])[..|own|] == own;
    } else {
      assert own + [] == own;
    }
  }

  /** Each channel number's messages are those its own frames alone would give. */
  lemma {:induction false} PerChannel(channels: map<nat, Pending>, events: seq<Event>, ch: nat)
    ensures View(Assembled(channels, events), ch) == Feed(Slot(PendingAt(channels, ch), []), OfChannel(events, ch))
  {
    if events != [] {
      var before, e := events[..|events| - 1], events[|events| - 1];
      PerChannel(channels, before, ch);
      OneMoreOn(Assembled(channels, before), e, ch);
      OneMoreOnChannel(Slot(PendingAt(channels, ch), []), events, ch);
    }
  }

  // ---------------------------------------------------------------------------------------------
  // Whole messages

  datatype Piece = Piece(bytes: Bytes)

  /** A message cut into body frames; head and properties are the parts of the header frame the server skips. */
  datatype Content = Content(exchange: string, key: string, head: Bytes, properties: Bytes, pieces: seq<Piece>)

  function Joined(pieces: seq<Piece>): Bytes {
    if pieces == [] then [] else Joined(pieces[..|pieces| - 1]) + pieces[|pieces| - 1].bytes
  }

  predicate Sendable(c: Content) {
    |c.head| == 4 && |Joined(c.pieces)| < 0x1_0000_0000_0000_0000
  }

  function HeaderPayload(c: Content): Bytes {
    c.head + Encode(|Joined(c.pieces)|, LONG_LONG) + c.properties
  }

  /** A channel of a connection. */
  datatype Link = Link(conn: nat, ch: nat)

  function Opening(l: Link, c: Content): seq<Event> {
    [Start(l.conn, l.ch, c.exchange, c.key), Header(l.conn, l.ch, HeaderPayload(c))]
  }

  function Bodies(l: Link, pieces: seq<Piece>): (events: seq<Event>)
    ensures |events| == |pieces|
  {
    if pieces == [] then [] else Bodies(l, pieces[..|pieces| - 1]) + [Body(l.conn, l.ch, pieces[|pieces| - 1].bytes)]
  }

  function Frames(l: Link, c: Content): seq<Event> {
    Opening(l, c) + Bodies(l, c.pieces)
  }

  function AllFrames(l: Link, contents: seq<Content>): seq<Event> {
    if contents == [] then [] else AllFrames(l, contents[..|contents| - 1]) + Frames(l, contents[|contents| - 1])
  }

  function Whole(ch: nat, c: Content): Message {
    Message(ch, c.exchange, c.key, Joined(c.pieces))
  }

  /** The messages that have at least one body frame. */
  function WithBody(ch: nat, contents: seq<Content>): seq<Message> {
    if contents == [] then []
    else
      var rest, c := WithBody(ch, contents[..|contents| - 1]), contents[|contents| - 1];
      if c.pieces == [] then rest else rest + [Whole(ch, c)]
  }

  lemma {:induction false} Split(s: Slot, a: seq<Event>, b: seq<Event>)
    ensures Feed(s, a + b) == Feed(Feed(s, a), b)
  {
    if b == [] {
      assert a + b == a;
    } else {
      var k := |b| - 1;
      Split(s, a, b[..k]);
      assert (a + b)[..|a| + k] == a + b[..k];
    }
  }

  /** What the body frames of a message leave of it: it goes with the first one that completes it. */
  function Filled(p: Pending, out: seq<Message>, ch: nat, pieces: seq<Piece>): Slot
    requires p.Pending?
  {
    var body := p.body + Joined(pieces);
    if pieces != [] && |body| >= p.size then Slot(Nothing, out + [Message(ch, p.exchange, p.key, body)])
    else Slot(p.(body := body), out)
  }

  lemma FedLast(s: Slot, before: seq<Event>, e: Event, all: seq<Event>)
    requires all == before + [e]
    ensures Feed(s, all) == Fed(Feed(s, before), e)
  {
    assert all[..|before|] == before;
  }

  lemma {:induction false} Fill(p: Pending, out: seq<Message>, l: Link, pieces: seq<Piece>)
    requires p.Pending? && |p.body + Joined(pieces)| <= p.size
    ensures Feed(Slot(p, out), Bodies(l, pieces)) == Filled(p, out, l.ch, pieces)
  {
    if pieces == [] {
      assert p.body + [] == p.body;
    } else {
      var k := |pieces| - 1;
      Fill(p, out, l, pieces[..k]);
      FilledStep(p, out, l, pieces[..k], pieces[k]);
      assert pieces == pieces[..k] + [pieces[k]];
      FedLast(Slot(p, out), Bodies(l, pieces[..k]), Body(l.conn, l.ch, pieces[k].bytes), Bodies(l, pieces));
    }
  }

  lemma FilledStep(p: Pending, out: seq<Message>, l: Link, pieces: seq<Piece>, x: Piece)
    requires p.Pending? && |p.body + Joined(pieces) + x.bytes| <= p.size
    ensures Fed(Filled(p, out, l.ch, pieces), Body(l.conn, l.ch, x.bytes)) == Filled(p, out, l.ch, pieces + [x])
  {
    var body := p.body + Joined(pieces);
    JoinedLast(p.body, pieces, x);
    NothingMore(out);
    if pieces != [] && |body| >= p.size {
      assert body + x.bytes == body;
      NothingMore(out + [Message(l.ch, p.exchange, p.key, body)]);
    }
  }

  lemma JoinedLast(body: Bytes, pieces: seq<Piece>, x: Piece)
    ensures body + Joined(pieces + [x]) == body + Joined(pieces) + x.bytes
  {
    assert (pieces + [x])[..|pieces|] == pieces;
  }

  lemma HeaderSize(c: Content)
    requires Sendable(c)
    ensures |HeaderPayload(c)| >= 12 && Decode(HeaderPayload(c)[4..12]) == |Joined(c.pieces)|
  {
    Powers();
    DecodeEncode(|Joined(c.pieces)|, LONG_LONG);
    assert HeaderPayload(c)[4..12] == Encode(|Joined(c.pieces)|, LONG_LONG);
  }

  lemma Opened(s: Slot, l: Link, c: Content)
    requires Sendable(c)
    ensures Feed(s, Opening(l, c)) == Slot(Pending(c.exchange, c.key, |Joined(c.pieces)|, []), s.out)
  {
    var first, second := Opening(l, c)[0], Opening(l, c)[1];
    HeaderSize(c);
    assert s.out + [] == s.out;
    assert [first][..0] == [];
    assert Feed(s, [first]) == Fed(s, first);
    assert [first, second][..1] == [first];
  }

  lemma {:induction false} JoinedPrefix(pieces: seq<Piece>, k: nat)
    requires k <= |pieces|
    ensures Joined(pieces[..k]) <= Joined(pieces)
  {
    if k == |pieces| {
      assert pieces[..k] == pieces;
    } else {
      JoinedPrefix(pieces[..|pieces| - 1], k);
      assert pieces[..|pieces| - 1][..k] == pieces[..k];
    }
  }

  /**
   A message's first frames, up to the k-th body frame, whatever was pending before: it is published, whole, with the
   first body frame after which nothing is missing, and not before.
   */
  lemma PublishedWith(s: Slot, l: Link, c: Content, k: nat)
    requires Sendable(c) && k <= |c.pieces|
    ensures Feed(s, Opening(l, c) + Bodies(l, c.pieces[..k])).out
            == if 0 < k && |Joined(c.pieces[..k])| == |Joined(c.pieces)| then s.out + [Whole(l.ch, c)] else s.out
  {
    var p, pieces := Pending(c.exchange, c.key, |Joined(c.pieces)|, []), c.pieces[..k];
    Opened(s, l, c);
    Split(s, Opening(l, c), Bodies(l, pieces));
    JoinedPrefix(c.pieces, k);
    if |Joined(pieces)| == |Joined(c.pieces)| { assert Joined(pieces) == Joined(c.pieces); }
    assert p.body + Joined(pieces) == Joined(pieces);
    Fill(p, s.out, l, pieces);
  }

  /** One message's frames, whatever was pending before: the message, whole, unless it has no body frame. */
  lemma OneContent(s: Slot, l: Link, c: Content)
    requires Sendable(c)
    ensures Feed(s, Frames(l, c)).out == if c.pieces == [] then s.out else s.out + [Whole(l.ch, c)]
  {
    PublishedWith(s, l, c, |c.pieces|);
    assert c.pieces[..|c.pieces|] == c.pieces;
  }

  /**
   Messages sent one after another on a channel come out in order, each whole, whatever was pending before, however they
   are cut into body frames and however other channels' frames come between (PerChannel); only those without a body frame are missing.
   */
  lemma {:induction false} ManyContents(s: Slot, l: Link, contents: seq<Content>)
    requires forall i :: 0 <= i < |contents| ==> Sendable(contents[i])
    ensures Feed(s, AllFrames(l, contents)).out == s.out + WithBody(l.ch, contents)
  {
    if contents == [] {
      NothingMore(s.out);
    } else {
      var k := |contents| - 1;
      ManyContents(s, l, contents[..k]);
      NextContent(s, l, AllFrames(l, contents[..k]), contents[k], AllFrames(l, contents), WithBody(l.ch, contents[..k]));
    }
  }

  lemma NextContent(s: Slot, l: Link, before: seq<Event>, c: Content, all: seq<Event>, out: seq<Message>)
    requires Sendable(c) && all == before + Frames(l, c) && Feed(s, before).out == s.out + out
    ensures Feed(s, all).out == s.out + (if c.pieces == [] then out else out + [Whole(l.ch, c)])
  {
    Split(s, before, Frames(l, c));
    OneContent(Feed(s, before), l, c);
    Grouped(s.out, out, [Whole(l.ch, c)]);
  }

  lemma Grouped(a: seq<Message>, b: seq<Message>, c: seq<Message>)
    ensures a + b + c == a + (b + c)
  {
  }

  // ---------------------------------------------------------------------------------------------
  // Several connections

  /** What one channel of one connection sends. */
  datatype Sender = Sender(link: Link, contents: seq<Content>)

  predicate On(e: Event, l: Link) {
    e.conn == l.conn && e.ch == l.ch
  }

  function OfLink(events: seq<Event>, l: Link): seq<Event> {
    if events == [] then []
    else OfLink(events[..|events| - 1], l) + (if On(events[|events| - 1], l) then [events[|events| - 1]] else [])
  }

  ghost predicate AllSendable(senders: seq<Sender>) {
    forall j, i :: 0 <= j < |senders| && 0 <= i < |senders[j].contents| ==> Sendable(senders[j].contents[i])
  }

  ghost predicate OfSome(e: Event, senders: seq<Sender>) {
    exists j :: 0 <= j < |senders| && On(e, senders[j].link)
  }

  /** The frames of the senders in some order that keeps each sender's own. */
  ghost predicate Interleaves(events: seq<Event>, senders: seq<Sender>) {
    && (forall i :: 0 <= i < |events| ==> OfSome(events[i], senders))
    && (forall j :: 0 <= j < |senders| ==> OfLink(events, senders[j].link) == AllFrames(senders[j].link, senders[j].contents))
  }

  /** How often a message was sent with a body, over all senders. */
  function SentCount(senders: seq<Sender>, m: Message): nat {
    if senders == [] then 0
    else
      var last := senders[|senders| - 1];
      SentCount(senders[..|senders| - 1], m) + multiset(WithBody(last.link.ch, last.contents))[m]
  }

  /** What comes out is what was sent with a body, each message as often as it was sent. */
  ghost predicate Arrived(channels: map<nat, Pending>, events: seq<Event>, senders: seq<Sender>) {
    forall m :: multiset(Assembled(channels, events).out)[m] == SentCount(senders, m)
  }

  function LinksOf(senders: seq<Sender>): (links: seq<Link>)
    ensures |links| == |senders|
  {
    seq(|senders|, j requires 0 <= j < |senders| => senders[j].link)
  }

  /** No two connections use the same channel number. */
  predicate NoneShared(links: seq<Link>) {
    forall i, j :: 0 <= i < |links| && 0 <= j < |links| && links[i].conn != links[j].conn ==> links[i].ch != links[j].ch
  }

  predicate AllDistinct(links: seq<Link>) {
    forall i, j :: 0 <= i < j < |links| ==> links[i] != links[j]
  }

  lemma {:induction false} CountOfChannel(out: seq<Message>, m: Message)
    ensures multiset(out)[m] == multiset(MessagesOf(out, m.ch))[m]
  {
    if out != [] {
      var k := |out| - 1;
      CountOfChannel(out[..k], m);
      assert out == out[..k] + [out[k]];
    }
  }

  lemma {:induction false} OtherChannel(ch: nat, contents: seq<Content>, m: Message)
    requires m.ch != ch
    ensures multiset(WithBody(ch, contents))[m] == 0
  {
    if contents != [] { OtherChannel(ch, contents[..|contents| - 1], m); }
  }

  lemma OneMoreSender(before: seq<Sender>, last: Sender, all: seq<Sender>, m: Message)
    requires all == before + [last]
    ensures SentCount(all, m) == SentCount(before, m) + multiset(WithBody(last.link.ch, last.contents))[m]
  {
    assert all[..|before|] == before;
  }

  lemma {:induction false} OnlySender(senders: seq<Sender>, j: nat, m: Message)
    requires j < |senders| && forall i :: 0 <= i < |senders| && i != j ==> senders[i].link.ch != m.ch
    ensures SentCount(senders, m) == multiset(WithBody(senders[j].link.ch, senders[j].contents))[m]
  {
    var before, last := senders[..|senders| - 1], senders[|senders| - 1];
    OneMoreSender(before, last, senders, m);
    if j < |before| {
      OnlySender(before, j, m);
      OtherChannel(last.link.ch, last.contents, m);
    } else {
      NoSender(before, m);
    }
  }

  lemma {:induction false} NoSender(senders: seq<Sender>, m: Message)
    requires forall i :: 0 <= i < |senders| ==> senders[i].link.ch != m.ch
    ensures SentCount(senders, m) == 0
  {
    if senders != [] {
      var k := |senders| - 1;
      NoSender(senders[..k], m);
      OtherChannel(senders[k].link.ch, senders[k].contents, m);
    }
  }

  lemma {:induction false} LinkIsChannel(events: seq<Event>, l: Link)
    requires forall i :: 0 <= i < |events| && events[i].ch == l.ch ==> On(events[i], l)
    ensures OfChannel(events, l.ch) == OfLink(events, l)
  {
    if events != [] { LinkIsChannel(events[..|events| - 1], l); }
  }

  lemma {:induction false} NothingOnChannel(events: seq<Event>, ch: nat)
    requires forall i :: 0 <= i < |events| ==> events[i].ch != ch
    ensures OfChannel(events, ch) == []
  {
    if events != [] { NothingOnChannel(events[..|events| - 1], ch); }
  }

  /** On a channel number that one sender has to itself, the sender's messages come out in order, each whole. */
  lemma OwnChannel(channels: map<nat, Pending>, events: seq<Event>, senders: seq<Sender>, j: nat)
    requires AllSendable(senders) && Interleaves(events, senders) && j < |senders|
    requires forall i :: 0 <= i < |senders| && i != j ==> senders[i].link.ch != senders[j].link.ch
    ensures MessagesOf(Assembled(channels, events).out, senders[j].link.ch) == WithBody(senders[j].link.ch, senders[j].contents)
  {
    var l := senders[j].link;
    LinkIsChannel(events, l);
    PerChannel(channels, events, l.ch);
    ManyContents(Slot(PendingAt(channels, l.ch), []), l, senders[j].contents);
    assert [] + WithBody(l.ch, senders[j].contents) == WithBody(l.ch, senders[j].contents);
  }

  lemma ArrivesOnce(channels: map<nat, Pending>, events: seq<Event>, senders: seq<Sender>, m: Message)
    requires AllSendable(senders) && Interleaves(events, senders)
    requires forall i, j :: 0 <= i < j < |senders| ==> senders[i].link.ch != senders[j].link.ch
    ensures multiset(Assembled(channels, events).out)[m] == SentCount(senders, m)
  {
    CountOfChannel(Assembled(channels, events).out, m);
    if j :| 0 <= j < |senders| && senders[j].link.ch == m.ch {
      OwnChannel(channels, events, senders, j);
      OnlySender(senders, j, m);
    } else {
      NothingOnChannel(events, m.ch);
      PerChannel(channels, events, m.ch);
      NoSender(senders, m);
    }
  }

  /** A message of one byte. */
  function Short(key: string): Content {
    Content("", key, [0, 0, 0, 0], [], [Piece([1])])
  }

  lemma ShortFrames(l: Link, key: string)
    ensures Sendable(Short(key)) && Joined(Short(key).pieces) == [1]
    ensures AllFrames(l, [Short(key)]) == Opener(l, key) + Rest(l, key)
    ensures WithBody(l.ch, [Short(key)]) == [Message(l.ch, "", key, [1])]
  {
    var c := Short(key);
    assert c.pieces[..0] == [] && Joined([]) + [1] == [1];
    assert Bodies(l, c.pieces[..0]) + [Body(l.conn, l.ch, [1])] == [Body(l.conn, l.ch, [1])];
    assert [c][..0] == [] && AllFrames(l, []) + Frames(l, c) == Frames(l, c);
  }

  lemma {:induction false} OfLinkConcat(a: seq<Event>, b: seq<Event>, l: Link)
    ensures OfLink(a + b, l) == OfLink(a, l) + OfLink(b, l)
  {
    if b == [] {
      assert a + b == a;
    } else {
      var k := |b| - 1;
      var last := if On(b[k], l) then [b[k]] else [];
      OfLinkConcat(a, b[..k], l);
      assert (a + b)[..|a| + k] == a + b[..k];
      assert OfLink(a + b, l) == OfLink(a, l) + OfLink(b[..k], l) + last;
      assert OfLink(b, l) == OfLink(b[..k], l) + last;
    }
  }

  lemma {:induction false} AllOfLink(events: seq<Event>, own: Link, l: Link)
    requires forall i :: 0 <= i < |events| ==> On(events[i], own)
    ensures OfLink(events, l) == if l == own then events else []
  {
    if events != [] {
      var k := |events| - 1;
      AllOfLink(events[..k], own, l);
      assert On(events[k], own) && events == events[..k] + [events[k]];
    }
  }

  lemma Woven(mine: Link, yours: Link, a1: seq<Event>, b1: seq<Event>, a2: seq<Event>, b2: seq<Event>, l: Link)
    requires mine != yours
    requires forall i :: 0 <= i < |a1| ==> On(a1[i], mine)
    requires forall i :: 0 <= i < |a2| ==> On(a2[i], mine)
    requires forall i :: 0 <= i < |b1| ==> On(b1[i], yours)
    requires forall i :: 0 <= i < |b2| ==> On(b2[i], yours)
    ensures OfLink(a1 + b1 + a2 + b2, l) == if l == mine then a1 + a2 else if l == yours then b1 + b2 else []
  {
    OfLinkConcat(a1 + b1 + a2, b2, l);
    OfLinkConcat(a1 + b1, a2, l);
    OfLinkConcat(a1, b1, l);
    AllOfLink(a1, mine, l);
    AllOfLink(b1, yours, l);
    AllOfLink(a2, mine, l);
    AllOfLink(b2, yours, l);
    WithoutEmpty(a1, a2);
    WithoutEmpty(b1, b2);
  }

  lemma WithoutEmpty(a: seq<Event>, b: seq<Event>)
    ensures a + [] + b + [] == a + b && [] + a + [] + b == a + b
  {
  }

  lemma FourParts(s: Slot, a: seq<Event>, b: seq<Event>, c: seq<Event>, d: seq<Event>)
    ensures Feed(s, a + b + c + d) == Feed(Feed(Feed(Feed(s, a), b), c), d)
  {
    Split(s, a + b + c, d);
    Split(s, a + b, c);
    Split(s, a, b);
  }

  function Opener(l: Link, key: string): seq<Event> {
    [Start(l.conn, l.ch, "", key)]
  }

  function Rest(l: Link, key: string): seq<Event> {
    [Header(l.conn, l.ch, HeaderPayload(Short(key)))] + [Body(l.conn, l.ch, [1])]
  }

  /** Both senders open a message, then the first sends its header and body, then the second. */
  function Crossed(mine: Link, yours: Link): seq<Event> {
    Opener(mine, "mine") + Opener(yours, "yours") + Rest(mine, "mine") + Rest(yours, "yours")
  }

  lemma CrossedOf(mine: Link, yours: Link, l: Link)
    requires mine != yours
    ensures OfLink(Crossed(mine, yours), l) == if l == mine then AllFrames(mine, [Short("mine")])
                                               else if l == yours then AllFrames(yours, [Short("yours")]) else []
  {
    Woven(mine, yours, Opener(mine, "mine"), Opener(yours, "yours"), Rest(mine, "mine"), Rest(yours, "yours"), l);
    ShortFrames(mine, "mine");
    ShortFrames(yours, "yours");
  }

  lemma FedOne(s: Slot, e: Event)
    ensures Feed(s, [e]) == Fed(s, e)
  {
    assert [e][..0] == [];
  }

  lemma OpenerFed(s: Slot, l: Link, key: string)
    ensures Feed(s, Opener(l, key)) == Slot(Pending("", key, 0, []), s.out)
  {
    FedOne(s, Opener(l, key)[0]);
    NothingMore(s.out);
  }

  /** The header and the body of one sender complete whatever message is pending. */
  lemma RestFed(p: Pending, out: seq<Message>, l: Link, key: string)
    requires p.Pending?
    ensures Feed(Slot(p, out), Rest(l, key)) == Slot(Nothing, out + [Message(l.ch, p.exchange, p.key, [1])])
  {
    var header, body := Rest(l, key)[0], Rest(l, key)[1];
    ShortFrames(l, key);
    HeaderSize(Short(key));
    FedOne(Slot(p, out), header);
    NothingMore(out);
    var q := p.(size := 1, body := []);
    assert Fed(Slot(p, out), header) == Slot(q, out);
    FedOne(Slot(q, out), body);
    assert [] + [1] == [1];
    Split(Slot(p, out), [header], [body]);
  }

  /** With nothing pending, headers and bodies are dropped. */
  lemma {:induction false} Dropped(out: seq<Message>, events: seq<Event>)
    requires forall i :: 0 <= i < |events| ==> !events[i].Start?
    ensures Feed(Slot(Nothing, out), events) == Slot(Nothing, out)
  {
    NothingMore(out);
    if events != [] { Dropped(out, events[..|events| - 1]); }
  }

  /** On one channel number: the first sender's body goes out under the second's key, and the other body is dropped. */
  lemma CrossedOut(mine: Link, yours: Link)
    requires mine.ch == yours.ch
    ensures Feed(EMPTY, Crossed(mine, yours)).out == [Message(yours.ch, "", "yours", [1])]
  {
    var a1, b1, a2, b2 := Opener(mine, "mine"), Opener(yours, "yours"), Rest(mine, "mine"), Rest(yours, "yours");
    var m := Message(yours.ch, "", "yours", [1]);
    FourParts(EMPTY, a1, b1, a2, b2);
    OpenerFed(EMPTY, mine, "mine");
    OpenerFed(Slot(Pending("", "mine", 0, []), []), yours, "yours");
    RestFed(Pending("", "yours", 0, []), [], mine, "mine");
    assert [] + [m] == [m];
    Dropped([m], b2);
  }

  /** Only two of the senders send anything. */
  function TwoSenders(links: seq<Link>, i: nat, j: nat): (senders: seq<Sender>)
    ensures |senders| == |links|
  {
    seq(|links|, k requires 0 <= k < |links| =>
      Sender(links[k], if k == i then [Short("mine")] else if k == j then [Short("yours")] else []))
  }

  lemma {:induction false} SentAtLeast(senders: seq<Sender>, j: nat, m: Message)
    requires j < |senders|
    ensures multiset(WithBody(senders[j].link.ch, senders[j].contents))[m] <= SentCount(senders, m)
  {
    var k := |senders| - 1;
    if j < k {
      SentAtLeast(senders[..k], j, m);
      assert senders[..k][j] == senders[j];
    }
  }

  lemma CrossedSender(links: seq<Link>, i: nat, j: nat, k: nat)
    requires i < |links| && j < |links| && i != j && k < |links| && AllDistinct(links)
    ensures var sender := TwoSenders(links, i, j)[k];
            && OfLink(Crossed(links[i], links[j]), sender.link) == AllFrames(sender.link, sender.contents)
            && forall h :: 0 <= h < |sender.contents| ==> Sendable(sender.contents[h])
  {
    var contents := TwoSenders(links, i, j)[k].contents;
    CrossedOf(links[i], links[j], links[k]);
    if k == i {
      assert contents == [Short("mine")];
      ShortFrames(links[i], "mine");
    } else if k == j {
      assert contents == [Short("yours")];
      ShortFrames(links[j], "yours");
    } else {
      assert contents == [];
    }
  }

  lemma InterleavesBy(events: seq<Event>, senders: seq<Sender>, i: nat, j: nat)
    requires i < |senders| && j < |senders|
    requires forall k :: 0 <= k < |events| ==> On(events[k], senders[i].link) || On(events[k], senders[j].link)
    requires forall k :: 0 <= k < |senders| ==> OfLink(events, senders[k].link) == AllFrames(senders[k].link, senders[k].contents)
    ensures Interleaves(events, senders)
  {
  }

  lemma CrossedInterleaves(links: seq<Link>, i: nat, j: nat)
    requires i < |links| && j < |links| && i != j && AllDistinct(links)
    ensures AllSendable(TwoSenders(links, i, j)) && Interleaves(Crossed(links[i], links[j]), TwoSenders(links, i, j))
  {
    var senders, events := TwoSenders(links, i, j), Crossed(links[i], links[j]);
    forall k | 0 <= k < |senders|
      ensures OfLink(events, senders[k].link) == AllFrames(senders[k].link, senders[k].contents)
      ensures forall h :: 0 <= h < |senders[k].contents| ==> Sendable(senders[k].contents[h])
    {
      CrossedSender(links, i, j, k);
    }
    CrossedOn(links[i], links[j]);
    InterleavesBy(events, senders, i, j);
  }

  lemma CrossedOn(mine: Link, yours: Link)
    ensures var events := Crossed(mine, yours); forall k :: 0 <= k < |events| ==> On(events[k], mine) || On(events[k], yours)
  {
  }

  /** The frames of messages sent over these channels, in some order that keeps each channel's own. */
  ghost predicate SentOver(links: seq<Link>, events: seq<Event>, senders: seq<Sender>) {
    LinksOf(senders) == links && AllSendable(senders) && Interleaves(events, senders)
  }

  lemma TwoSendersOver(links: seq<Link>, i: nat, j: nat)
    ensures LinksOf(TwoSenders(links, i, j)) == links
  {
  }

  const NOTHING_PENDING: map<nat, Pending> := map[]

  /** Two connections on one channel number can lose a message that was sent with a body. */
  lemma SharedChannelMixes(links: seq<Link>, i: nat, j: nat)
    requires i < |links| && j < |links| && i != j && AllDistinct(links) && links[i].ch == links[j].ch
    ensures SentOver(links, Crossed(links[i], links[j]), TwoSenders(links, i, j))
    ensures Assembled(NOTHING_PENDING, Crossed(links[i], links[j])).out == [Message(links[j].ch, "", "yours", [1])]
    ensures !Arrived(NOTHING_PENDING, Crossed(links[i], links[j]), TwoSenders(links, i, j))
  {
    var senders, events, m := TwoSenders(links, i, j), Crossed(links[i], links[j]), Message(links[i].ch, "", "mine", [1]);
    CrossedInterleaves(links, i, j);
    TwoSendersOver(links, i, j);
    OneOut(links[i], links[j]);
    ShortFrames(links[i], "mine");
    SentAtLeast(senders, i, m);
    assert multiset(Assembled(NOTHING_PENDING, events).out)[m] != SentCount(senders, m);
  }

  lemma OneOut(mine: Link, yours: Link)
    requires mine.ch == yours.ch
    ensures Assembled(NOTHING_PENDING, Crossed(mine, yours)).out == [Message(yours.ch, "", "yours", [1])]
  {
    CrossedOut(mine, yours);
    CrossedOn(mine, yours);
    OneChannelOnly(NOTHING_PENDING, Crossed(mine, yours), mine.ch);
  }

  /** With events of one channel only, the assembly is that channel's. */
  lemma {:induction false} OneChannelOnly(channels: map<nat, Pending>, events: seq<Event>, ch: nat)
    requires forall i :: 0 <= i < |events| ==> events[i].ch == ch
    ensures var a := Assembled(channels, events);
            Slot(PendingAt(a.channels, ch), a.out) == Feed(Slot(PendingAt(channels, ch), []), events)
  {
    if events != [] { OneChannelOnly(channels, events[..|events| - 1], ch); }
  }

  lemma AllArrive(links: seq<Link>, channels: map<nat, Pending>, events: seq<Event>, senders: seq<Sender>)
    requires AllDistinct(links) && NoneShared(links) && SentOver(links, events, senders)
    ensures Arrived(channels, events, senders)
  {
    assert forall i :: 0 <= i < |senders| ==> senders[i].link == links[i];
    forall m ensures multiset(Assembled(channels, events).out)[m] == SentCount(senders, m) {
      ArrivesOnce(channels, events, senders, m);
    }
  }

  /**
   In every interleaving of the frames of these channels of these connections, whatever was pending before, every message
   sent with a body is put together once and as it was sent, and no other, if and only if no two connections use the same
   channel number.
   */
  lemma ArriveExactly(links: seq<Link>)
    requires AllDistinct(links)
    ensures (forall channels, events, senders :: SentOver(links, events, senders) ==> Arrived(channels, events, senders))
            <==> NoneShared(links)
  {
    if NoneShared(links) {
      forall channels, events, senders | SentOver(links, events, senders) ensures Arrived(channels, events, senders) {
        AllArrive(links, channels, events, senders);
      }
    } else {
      var events, senders := SomeLost(links);
    }
  }

  lemma SomeLost(links: seq<Link>) returns (events: seq<Event>, senders: seq<Sender>)
    requires AllDistinct(links) && !NoneShared(links)
    ensures SentOver(links, events, senders) && !Arrived(NOTHING_PENDING, events, senders)
  {
    var i, j :| 0 <= i < |links| && 0 <= j < |links| && links[i].conn != links[j].conn && links[i].ch == links[j].ch;
    SharedChannelMixes(links, i, j);
    events, senders := Crossed(links[i], links[j]), TwoSenders(links, i, j);
  }
}
