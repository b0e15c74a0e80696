/**
 The binary protocol of pkg/network/protocol.go: a 16-byte header (magic number, version, type, flags, length,
 checksum) followed by the payload.
 */
module Framing {
  import opened Endian
  import opened Streams
  import opened Bits
  import Crc32

  const MAGIC := 0x504F5254
  const VERSION := 1
  const HEADER_SIZE := 16
  const MAX_MESSAGE := 64 * 1024 * 1024

  datatype Header = Header(magic: Uint32, version: Byte, kind: Byte, flags: Uint16, length: Uint32, checksum: Uint32)

  datatype Message = Message(header: Header, payload: Bytes)

  datatype Error = Closed | ShortHeader | BadMagic | BadVersion | TooLarge | ShortPayload | BadChecksum

  // ---------------------------------------------------------------------------------------------
  // The checksum as a number

  /** The k low bits of n, lowest first. */
  function BitsOf(n: nat, k: nat): (bits: seq<bool>)
    ensures |bits| == k
  {
    if k == 0 then [] else [n % 2 == 1] + BitsOf(n / 2, k - 1)
  }

  function ValueOf(bits: seq<bool>): nat {
    if bits == [] then 0 else (if bits[0] then 1 else 0) + 2 * ValueOf(bits[1..])
  }

  lemma {:induction false} ValueOfBits(n: nat, k: nat)
    requires n < Pow2(k)
    ensures ValueOf(BitsOf(n, k)) == n
  {
    if k > 0 { ValueOfBits(n / 2, k - 1); }
  }

  lemma {:induction false} BitsOfValue(bits: seq<bool>)
    ensures ValueOf(bits) < Pow2(|bits|) && BitsOf(ValueOf(bits), |bits|) == bits
  {
    if bits != [] {
      BitsOfValue(bits[1..]);
      var n, b := ValueOf(bits[1..]), if bits[0] then 1 else 0;
      assert (b + 2 * n) / 2 == n && (b + 2 * n) % 2 == b;
    }
  }

  const BYTE: nat := 8
  const WORD: nat := 32

  lemma Pow2Of(k: nat)
    ensures k == BYTE ==> Pow2(k) == 256
    ensures k == WORD ==> Pow2(k) == 0x1_0000_0000
  {
    assert Pow2(4) == 16;
    assert Pow2(8) == 256;
    assert Pow2(12) == 0x1000;
    assert Pow2(16) == 0x1_0000;
    assert Pow2(20) == 0x10_0000;
    assert Pow2(24) == 0x100_0000;
    assert Pow2(28) == 0x1000_0000;
    assert Pow2(32) == 0x1_0000_0000;
  }

  function Octets(bytes: Bytes): (octets: Crc32.Bytes)
    ensures |octets| == |bytes|
  {
    seq(|bytes|, i requires 0 <= i < |bytes| => Crc32.Bits(BitsOf(bytes[i], BYTE)))
  }

  /** calculateCRC32 */
  function Crc(payload: Bytes): Uint32 {
    BitsOfValue(Crc32.Checksum(Octets(payload)));
    Pow2Of(WORD);
    ValueOf(Crc32.Checksum(Octets(payload)))
  }

  // ---------------------------------------------------------------------------------------------
  // Writing and reading

  function HeaderBytes(h: Header): (bytes: Bytes)
    ensures |bytes| == HEADER_SIZE
  {
    Encode(h.magic, LONG) + [h.version, h.kind] + Encode(h.flags, SHORT) + Encode(h.length, LONG) + Encode(h.checksum, LONG)
  }

  function ParseHeader(bytes: Bytes): Header
    requires |bytes| == HEADER_SIZE
  {
    Header(Decode32(bytes[0..4]), bytes[4], bytes[5], Decode16(bytes[6..8]), Decode32(bytes[8..12]), Decode32(bytes[12..16]))
  }

  /** writeMessage */
  function WriteMessage(m: Message): Bytes {
    HeaderBytes(m.header) + m.payload
  }

  /** sendResponse: the length is cut to 32 bits. */
  function Response(kind: Byte, payload: Bytes): Message {
    Message(Header(MAGIC, VERSION, kind, 0, |payload| % 0x1_0000_0000, Crc(payload)), payload)
  }

  /** The part of processMessage before a message is handed on. */
  function ReadMessage(input: Bytes): (r: Step<Message, Error>)
    ensures r.Got? ==> |r.rest| < |input|
  {
    if input == [] then Failed(Closed)
    else if |input| < HEADER_SIZE then Failed(ShortHeader)
    else
      var h := ParseHeader(input[..HEADER_SIZE]);
      var body := input[HEADER_SIZE..];
      if h.magic != MAGIC then Failed(BadMagic)
      else if h.version != VERSION then Failed(BadVersion)
      else if h.length > MAX_MESSAGE then Failed(TooLarge)
      else if |body| < h.length then Failed(ShortPayload)
      else if h.checksum != Crc(body[..h.length]) then Failed(BadChecksum)
      else Got(Message(h, body[..h.length]), body[h.length..])
  }

  // ---------------------------------------------------------------------------------------------
  // Round trips

  predicate WellFormed(m: Message) {
    && m.header.magic == MAGIC && m.header.version == VERSION
    && m.header.length == |m.payload| <= MAX_MESSAGE
    && m.header.checksum == Crc(m.payload)
  }

  lemma HeaderRoundTrip(h: Header)
    ensures ParseHeader(HeaderBytes(h)) == h
  {
    var bytes := HeaderBytes(h);
    Powers();
    DecodeEncode(h.magic, LONG);
    DecodeEncode(h.flags, SHORT);
    DecodeEncode(h.length, LONG);
    DecodeEncode(h.checksum, LONG);
    assert bytes[0..4] == Encode(h.magic, LONG) && bytes[6..8] == Encode(h.flags, SHORT);
    assert bytes[8..12] == Encode(h.length, LONG) && bytes[12..16] == Encode(h.checksum, LONG);
  }

  lemma HeaderParsed(bytes: Bytes)
    requires |bytes| == HEADER_SIZE
    ensures HeaderBytes(ParseHeader(bytes)) == bytes
  {
    Powers();
    EncodeDecode(bytes[0..4]);
    EncodeDecode(bytes[6..8]);
    EncodeDecode(bytes[8..12]);
    EncodeDecode(bytes[12..16]);
    assert bytes == bytes[0..4] + [bytes[4], bytes[5]] + bytes[6..8] + bytes[8..12] + bytes[12..16];
  }

  lemma Parts(m: Message, rest: Bytes)
    ensures var input := WriteMessage(m) + rest;
            && |input| == HEADER_SIZE + |m.payload| + |rest|
            && ParseHeader(input[..HEADER_SIZE]) == m.header
            && input[HEADER_SIZE..] == m.payload + rest && (m.payload + rest)[..|m.payload|] == m.payload
  {
    HeaderRoundTrip(m.header);
    assert (WriteMessage(m) + rest)[..HEADER_SIZE] == HeaderBytes(m.header);
  }

  /** A message is read back, whatever follows it, exactly if it is well formed. */
  lemma RoundTripExactly(m: Message, rest: Bytes)
    ensures ReadMessage(WriteMessage(m) + rest) == Got(m, rest) <==> WellFormed(m)
  {
    Parts(m, rest);
  }

  lemma ResponseWellFormed(kind: Byte, payload: Bytes)
    ensures WellFormed(Response(kind, payload)) <==> |payload| <= MAX_MESSAGE
  {
  }

  /** A response is read back exactly if its payload is within the limit. */
  lemma ResponseRoundTrip(kind: Byte, payload: Bytes, rest: Bytes)
    ensures ReadMessage(WriteMessage(Response(kind, payload)) + rest) == Got(Response(kind, payload), rest)
            <==> |payload| <= MAX_MESSAGE
  {
    var m := Response(kind, payload);
    RoundTripExactly(m, rest);
    ResponseWellFormed(kind, payload);
  }

  /** The reader accepts nothing but well-formed messages as they are written. */
  lemma ReadsOnlyMessages(input: Bytes)
    requires ReadMessage(input).Got?
    ensures WellFormed(ReadMessage(input).item) && WriteMessage(ReadMessage(input).item) + ReadMessage(input).rest == input
  {
    HeaderParsed(input[..HEADER_SIZE]);
  }

  // ---------------------------------------------------------------------------------------------
  // The connection's loop

  /** What one round of the loop comes to. */
  datatype Heard = Handed(message: Message) | Refused(error: Error)

  function Hear(input: Bytes): Heard {
    match ReadMessage(input)
    case Got(m, _) => Handed(m)
    case Failed(e) => Refused(e)
  }

  /** What a round leaves: after a refusal too, the bytes it has read are gone. */
  function Left(input: Bytes): (rest: Bytes)
    ensures input != [] ==> |rest| < |input|
  {
    match ReadMessage(input)
    case Got(_, rest) => rest
    case Failed(Closed) => []
    case Failed(ShortHeader) => []
    case Failed(ShortPayload) => []
    case Failed(BadChecksum) => input[HEADER_SIZE + ParseHeader(input[..HEADER_SIZE]).length..]
    case Failed(_) => input[HEADER_SIZE..]
  }

  lemma LeftShrinks()
    ensures Shrinks(Left) && Left([]) == []
  {
  }

  /** The rounds of the loop while there is something to read. */
  function Loop(input: Bytes): seq<Heard> {
    LeftShrinks();
    Rounds(Hear, Left, input)
  }

  method HandleConnection(input: Bytes) returns (heard: seq<Heard>)
    ensures heard == Loop(input)
  {
    LeftShrinks();
    var rest := input;
    heard := [];
    while rest != []
      invariant heard + Rounds(Hear, Left, rest) == Loop(input)
      decreases |rest|
    {
      var h, next := Hear(rest), Left(rest);
      assert heard + ([h] + Rounds(Hear, Left, next)) == heard + [h] + Rounds(Hear, Left, next);
      heard := heard + [h];
      rest := next;
    }
  }

  /** The messages handed on, in order. */
  function Messages(heard: seq<Heard>): seq<Message> {
    if heard == [] then []
    else if heard[0].Handed? then [heard[0].message] + Messages(heard[1..])
    else Messages(heard[1..])
  }

  /** Everything but perhaps the checksum is right: what damage to payloads makes of well-formed messages. */
  predicate Framed(m: Message) {
    m.header.magic == MAGIC && m.header.version == VERSION && m.header.length == |m.payload| <= MAX_MESSAGE
  }

  function Judged(m: Message): Heard {
    if WellFormed(m) then Handed(m) else Refused(BadChecksum)
  }

  predicate CutOff(h: Heard) {
    h == Refused(ShortHeader) || h == Refused(ShortPayload)
  }

  /** One round reads one framed message, right or wrong, and the next begins behind it. */
  lemma OneRound(m: Message, rest: Bytes)
    requires Framed(m)
    ensures Hear(WriteMessage(m) + rest) == Judged(m) && Left(WriteMessage(m) + rest) == rest
  {
    Parts(m, rest);
    assert (WriteMessage(m) + rest)[HEADER_SIZE + |m.payload|..] == rest;
  }

  /** The bytes of a framed message cut short are refused, and nothing is left of them. */
  lemma CutRound(m: Message, k: nat)
    requires Framed(m) && 0 < k < |WriteMessage(m)|
    ensures CutOff(Hear(WriteMessage(m)[..k])) && Left(WriteMessage(m)[..k]) == []
  {
    if k >= HEADER_SIZE {
      var cut := Message(m.header, m.payload[..k - HEADER_SIZE]);
      assert WriteMessage(m)[..k] == WriteMessage(cut) + [];
      Parts(cut, []);
    }
  }

  lemma LoopInStep()
    ensures Shrinks(Left) && InStep(Hear, Left, WriteMessage, Framed, Judged, CutOff)
  {
    LeftShrinks();
    forall m, rest | Framed(m)
      ensures WriteMessage(m) != [] && Hear(WriteMessage(m) + rest) == Judged(m) && Left(WriteMessage(m) + rest) == rest
    {
      OneRound(m, rest);
    }
    forall m, k | Framed(m) && 0 < k < |WriteMessage(m)|
      ensures CutOff(Hear(WriteMessage(m)[..k])) && Left(WriteMessage(m)[..k]) == []
    {
      CutRound(m, k);
    }
  }

  lemma {:induction false} NoneInEnd(heard: seq<Heard>, end: seq<Heard>)
    requires forall i :: 0 <= i < |end| ==> CutOff(end[i])
    ensures Messages(heard + end) == Messages(heard)
    decreases |heard| + |end|
  {
    if heard != [] {
      NoneInEnd(heard[1..], end);
      assert (heard + end)[1..] == heard[1..] + end;
    } else if end != [] {
      NoneInEnd([], end[1..]);
      assert heard + end == end && [] + end[1..] == end[1..];
    }
  }

  lemma {:induction false} AllHanded(ms: seq<Message>)
    requires forall i :: 0 <= i < |ms| ==> WellFormed(ms[i])
    ensures Messages(Each(Judged, ms)) == ms
  {
    if ms != [] {
      AllHanded(ms[1..]);
      assert Each(Judged, ms)[1..] == Each(Judged, ms[1..]);
    }
  }

  /** Messages written one after another are all handed on, in order; of a stream cut anywhere exactly those that end before the cut. */
  lemma Stream(ms: seq<Message>, k: nat)
    requires (forall i :: 0 <= i < |ms| ==> WellFormed(ms[i])) && k <= |WriteAll(WriteMessage, ms)|
    ensures Messages(Loop(WriteAll(WriteMessage, ms))) == ms
    ensures Messages(Loop(WriteAll(WriteMessage, ms)[..k])) == ms[..Whole(WriteMessage, ms, k)]
  {
    LoopInStep();
    RoundsRead(Hear, Left, WriteMessage, Framed, Judged, CutOff, ms);
    AllHanded(ms);
    var end := RoundsCut(Hear, Left, WriteMessage, Framed, Judged, CutOff, ms, k);
    var whole := ms[..Whole(WriteMessage, ms, k)];
    NoneInEnd(Each(Judged, whole), end);
    AllHanded(whole);
  }

  // How the loop takes an error

  /** An error as Go code sees it: itself, or wrapped with a text. */
  datatype GoError = Plain(error: Error) | Wrapped(inner: GoError)

  /** What processMessage returns: every error of a round is wrapped. */
  function RoundError(e: Error): GoError {
    Wrapped(Plain(e))
  }

  predicate IsRecoverable(e: GoError) {
    e != Plain(Closed)
  }

  /** The handler returns at the end of the stream, and on an error that is not recoverable. */
  predicate Returns(h: Heard) {
    h.Refused? && var e := RoundError(h.error); e == Plain(Closed) || !IsRecoverable(e)
  }

  /**
   The handler never returns by itself, not even when the client is gone: it hears its loop's rounds and from then on
   that the stream is closed, again and again, for any number n of rounds.
   */
  lemma NeverReturns(input: Bytes, n: nat)
    requires |Loop(input)| < n
    ensures var heard := AfterRounds(Hear, Left, input, n).heard;
            && heard[..|Loop(input)|] == Loop(input)
            && (forall i :: |Loop(input)| <= i < n ==> heard[i] == Refused(Closed))
            && (forall i :: 0 <= i < n ==> !Returns(heard[i]))
  {
    LeftShrinks();
    RoundsThenNothing(Hear, Left, input, n);
    assert Hear([]) == Refused(Closed);
  }

  // ---------------------------------------------------------------------------------------------
  // Damage on the way

  lemma OctetsDiffer(a: Bytes, b: Bytes, i: nat)
    requires i < |a| == |b|
    ensures Octets(a)[i] == Octets(b)[i] <==> a[i] == b[i]
  {
    Pow2Of(BYTE);
    ValueOfBits(a[i], BYTE);
    ValueOfBits(b[i], BYTE);
  }

  /** The bits of a payload, the lowest of each byte first. */
  function PayloadBits(payload: Bytes): (bits: seq<bool>)
    ensures |bits| == 8 * |payload|
  {
    Crc32.BitsIn(Octets(payload))
  }

  /** A payload damaged within 32 consecutive bits is refused, whatever follows the message. */
  lemma DamageRefused(m: Message, payload: Bytes, from: nat, to: nat, rest: Bytes)
    requires WellFormed(m) && |payload| == |m.payload| && payload != m.payload
    requires from <= to <= 8 * |payload| && to <= from + 32
    requires forall i :: 0 <= i < 8 * |payload| && !(from <= i < to) ==> PayloadBits(m.payload)[i] == PayloadBits(payload)[i]
    ensures ReadMessage(WriteMessage(m.(payload := payload)) + rest) == Failed(BadChecksum)
  {
    DamageShows(m.payload, payload, from, to);
    OtherPayload(m, payload, rest);
  }

  /** A payload of the right length whose checksum is not the header's. */
  lemma OtherPayload(m: Message, payload: Bytes, rest: Bytes)
    requires WellFormed(m) && |payload| == |m.payload| && Crc(payload) != m.header.checksum
    ensures ReadMessage(WriteMessage(m.(payload := payload)) + rest) == Failed(BadChecksum)
  {
    Parts(m.(payload := payload), rest);
  }

  lemma DamageShows(a: Bytes, b: Bytes, from: nat, to: nat)
    requires |a| == |b| && a != b && from <= to <= 8 * |a| && to <= from + 32
    requires forall i :: 0 <= i < 8 * |a| && !(from <= i < to) ==> PayloadBits(a)[i] == PayloadBits(b)[i]
    ensures Crc(a) != Crc(b)
  {
    var k :| 0 <= k < |a| && a[k] != b[k];
    OctetsDiffer(a, b, k);
    assert Octets(a)[k] != Octets(b)[k];
    assert PayloadBits(a) == Crc32.BitsIn(Octets(a)) && PayloadBits(b) == Crc32.BitsIn(Octets(b));
    Crc32.DetectsBitBursts(Octets(a), Octets(b), from, to);
    BitsOfValue(Crc32.Checksum(Octets(a)));
    BitsOfValue(Crc32.Checksum(Octets(b)));
  }

  /** What arrived of a message: itself, or its payload damaged within 32 consecutive bits. */
  ghost predicate SlightlyDamaged(sent: Message, got: Message) {
    && got.header == sent.header && |got.payload| == |sent.payload|
    && exists from, to :: 0 <= from <= to <= 8 * |sent.payload| && to <= from + 32 && SameOutside(sent.payload, got.payload, from, to)
  }

  ghost predicate SameOutside(a: Bytes, b: Bytes, from: int, to: int)
    requires |a| == |b|
  {
    forall i :: 0 <= i < 8 * |a| && !(from <= i < to) ==> PayloadBits(a)[i] == PayloadBits(b)[i]
  }

  lemma JudgedByDamage(sent: Message, got: Message)
    requires WellFormed(sent) && SlightlyDamaged(sent, got)
    ensures Framed(got) && Judged(got) == if got == sent then Handed(sent) else Refused(BadChecksum)
  {
    if got != sent {
      var from, to :| 0 <= from <= to <= 8 * |sent.payload| && to <= from + 32 && SameOutside(sent.payload, got.payload, from, to);
      DamageShows(sent.payload, got.payload, from, to);
    }
  }

  /** The messages that arrived as they were sent. */
  function Undamaged(sent: seq<Message>, got: seq<Message>): seq<Message>
    requires |sent| == |got|
  {
    if sent == [] then []
    else if got[0] == sent[0] then [sent[0]] + Undamaged(sent[1..], got[1..])
    else Undamaged(sent[1..], got[1..])
  }

  lemma {:induction false} DamageJudged(sent: seq<Message>, got: seq<Message>)
    requires |sent| == |got| && forall i :: 0 <= i < |sent| ==> WellFormed(sent[i]) && SlightlyDamaged(sent[i], got[i])
    ensures (forall i :: 0 <= i < |got| ==> Framed(got[i])) && Messages(Each(Judged, got)) == Undamaged(sent, got)
  {
    if sent != [] {
      JudgedByDamage(sent[0], got[0]);
      DamageJudged(sent[1..], got[1..]);
      assert Each(Judged, got)[1..] == Each(Judged, got[1..]);
      assert forall i :: 0 < i < |got| ==> got[i] == got[1..][i - 1];
    }
  }

  /** Damage loses the damaged messages only: however many payloads are damaged, each within 32 bits, all the others are handed on, in order. */
  lemma DamageLosesNoOther(sent: seq<Message>, got: seq<Message>)
    requires |sent| == |got| && forall i :: 0 <= i < |sent| ==> WellFormed(sent[i]) && SlightlyDamaged(sent[i], got[i])
    ensures Messages(Loop(WriteAll(WriteMessage, got))) == Undamaged(sent, got)
  {
    DamageJudged(sent, got);
    LoopInStep();
    RoundsRead(Hear, Left, WriteMessage, Framed, Judged, CutOff, got);
  }
}
