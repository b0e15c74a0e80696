/**
 AMQP frames on the wire (pkg/amqp/server.go): type, channel and size, the payload, an end byte. A read from the
 connection is taken to return as many bytes as were asked for, or all that are left.
 */
module AmqpFrames {
  import opened Endian
  import opened Streams

  const FRAME_END: Byte := 0xCE
  const MAX_FRAME := 0x10_0000 // 1 MiB

  datatype Frame = Frame(kind: nat, channel: nat, payload: Bytes)

  datatype Error = Closed | ShortHeader | TooLarge | ShortPayload | BadEnd

  /** Type, channel and size are cut to 8, 16 and 32 bits. */
  function Head(kind: nat, channel: nat, size: nat): (head: Bytes)
    ensures |head| == 7
  {
    [kind % 256] + Encode(channel % 0x1_0000, SHORT) + Encode(size % 0x1_0000_0000, LONG)
  }

  function WriteFrame(f: Frame): Bytes {
    Head(f.kind, f.channel, |f.payload|) + f.payload + [FRAME_END]
  }

  /** One round of the reading loop. */
  function ReadFrame(input: Bytes): (r: Step<Frame, Error>)
    ensures r.Got? ==> |r.rest| < |input|
  {
    if input == [] then Failed(Closed)
    else if |input| < 7 then Failed(ShortHeader)
    else
      var size := Decode(input[3..7]);
      if size > MAX_FRAME then Failed(TooLarge)
      else if |input| < 7 + size then Failed(ShortPayload)
      else if |input| == 7 + size || input[7 + size] != FRAME_END then Failed(BadEnd)
      else Got(Frame(input[0], Decode(input[1..3]), input[7..7 + size]), input[8 + size..])
  }

  /** The reading loop: frames in order until one cannot be read. */
  method ReadFrames(input: Bytes) returns (frames: seq<Frame>, error: Error)
    ensures Outcome(frames, error) == ReadAll(ReadFrame, input)
  {
    var rest := input;
    frames := [];
    while true
      invariant ReadAll(ReadFrame, input) == Outcome(frames + ReadAll(ReadFrame, rest).items, ReadAll(ReadFrame, rest).error)
      decreases |rest|
    {
      if rest == [] { return frames, Closed; }
      if |rest| < 7 { return frames, ShortHeader; }
      var kind, channel, size := rest[0], Decode(rest[1..3]), Decode(rest[3..7]);
      if size > MAX_FRAME { return frames, TooLarge; }
      if |rest| < 7 + size { return frames, ShortPayload; }
      var payload := rest[7..7 + size];
      if |rest| == 7 + size || rest[7 + size] != FRAME_END { return frames, BadEnd; }
      ghost var others := ReadAll(ReadFrame, rest[8 + size..]);
      assert frames + ([Frame(kind, channel, payload)] + others.items) == frames + [Frame(kind, channel, payload)] + others.items;
      frames := frames + [Frame(kind, channel, payload)];
      rest := rest[8 + size..];
    }
  }

  predicate Fits(f: Frame) {
    f.kind < 256 && f.channel < 0x1_0000 && |f.payload| <= MAX_FRAME
  }

  lemma HeadRead(kind: nat, channel: nat, size: nat)
    ensures var head := Head(kind, channel, size);
            Decode(head[1..3]) == channel % 0x1_0000 && Decode(head[3..7]) == size % 0x1_0000_0000
  {
    Powers();
    DecodeEncode(channel % 0x1_0000, SHORT);
    DecodeEncode(size % 0x1_0000_0000, LONG);
    assert Head(kind, channel, size)[1..3] == Encode(channel % 0x1_0000, SHORT);
    assert Head(kind, channel, size)[3..7] == Encode(size % 0x1_0000_0000, LONG);
  }

  lemma Parts(f: Frame, rest: Bytes)
    ensures var bytes := WriteFrame(f) + rest;
            && |bytes| == 8 + |f.payload| + |rest|
            && bytes[0] == f.kind % 256
            && Decode(bytes[1..3]) == f.channel % 0x1_0000
            && Decode(bytes[3..7]) == |f.payload| % 0x1_0000_0000
            && bytes[7..7 + |f.payload|] == f.payload
            && bytes[7 + |f.payload|] == FRAME_END
            && bytes[8 + |f.payload|..] == rest
  {
    var bytes := WriteFrame(f) + rest;
    var head := Head(f.kind, f.channel, |f.payload|);
    HeadRead(f.kind, f.channel, |f.payload|);
    assert bytes[1..3] == head[1..3] && bytes[3..7] == head[3..7];
  }

  /** A frame is read back, whatever follows it, exactly if its fields fit. */
  lemma RoundTripExactly(f: Frame, rest: Bytes)
    ensures ReadFrame(WriteFrame(f) + rest) == Got(f, rest) <==> Fits(f)
  {
    Parts(f, rest);
  }

  lemma CutShort(f: Frame, k: nat)
    requires Fits(f) && k < |WriteFrame(f)|
    ensures ReadFrame(WriteFrame(f)[..k]).Failed?
  {
    Parts(f, []);
    var bytes := WriteFrame(f);
    assert bytes + [] == bytes;
    if k >= 7 {
      assert bytes[..k][3..7] == bytes[3..7];
    }
  }

  lemma HeadOf(bytes: Bytes)
    requires |bytes| == 7
    ensures Head(bytes[0], Decode(bytes[1..3]), Decode(bytes[3..7])) == bytes && Decode(bytes[1..3]) < 0x1_0000
  {
    Powers();
    var channel, size := bytes[1..3], bytes[3..7];
    EncodeDecode(channel);
    EncodeDecode(size);
    assert Decode(channel) % 0x1_0000 == Decode(channel) && Decode(size) % 0x1_0000_0000 == Decode(size);
    assert bytes == [bytes[0]] + channel + size;
  }

  /** The reader accepts nothing but what the writer writes. */
  lemma ReadsOnlyFrames(input: Bytes)
    requires ReadFrame(input).Got?
    ensures Fits(ReadFrame(input).item) && WriteFrame(ReadFrame(input).item) + ReadFrame(input).rest == input
  {
    HeadOf(input[..7]);
    assert input[..7][1..3] == input[1..3] && input[..7][3..7] == input[3..7];
  }

  lemma WireIsInverse()
    ensures Consumes(ReadFrame) && Inverse(ReadFrame, WriteFrame, Fits)
  {
    forall f, rest | Fits(f) ensures ReadFrame(WriteFrame(f) + rest) == Got(f, rest) { RoundTripExactly(f, rest); }
    forall f, k | Fits(f) && 0 <= k < |WriteFrame(f)| ensures ReadFrame(WriteFrame(f)[..k]).Failed? { CutShort(f, k); }
  }

  /** Frames written one after another are read back in order; of a cut stream exactly those that end before the cut. */
  lemma Stream(frames: seq<Frame>, k: nat)
    requires forall i :: 0 <= i < |frames| ==> Fits(frames[i])
    requires k <= |WriteAll(WriteFrame, frames)|
    ensures ReadAll(ReadFrame, WriteAll(WriteFrame, frames)) == Outcome(frames, Closed)
    ensures ReadAll(ReadFrame, WriteAll(WriteFrame, frames)[..k]).items == frames[..Whole(WriteFrame, frames, k)]
  {
    WireIsInverse();
    StreamRoundTrip(ReadFrame, WriteFrame, Fits, frames);
    CutStream(ReadFrame, WriteFrame, Fits, frames, k);
  }
}
