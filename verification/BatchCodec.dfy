/**
 Batches of chunks in one byte string (pkg/compression/compressor.go): each chunk behind its 32-bit length, the whole
 possibly compressed. Reading follows bytes.Reader: a read past the end gives what is left, and only a read that
 starts at the end fails.
 */
module BatchCodec {
  import opened Endian

  datatype Chunk = Chunk(bytes: Bytes)

  datatype Result<T> = Ok(value: T) | Err

  // ---------------------------------------------------------------------------------------------
  // Packing

  /** The length is cut to 32 bits. */
  function Prefixed(c: Chunk): Bytes {
    Encode(|c.bytes| % 0x1_0000_0000, LONG) + c.bytes
  }

  function Pack(chunks: seq<Chunk>): Bytes {
    if chunks == [] then [] else Prefixed(chunks[0]) + Pack(chunks[1..])
  }

  /** The loop shared by the batch compressors. */
  method WriteChunks(chunks: seq<Chunk>) returns (buf: Bytes)
    ensures buf == Pack(chunks)
  {
    buf := [];
    for i := 0 to |chunks|
      invariant buf + Pack(chunks[i..]) == Pack(chunks)
    {
      var length := |chunks[i].bytes| % 0x1_0000_0000;
      buf := buf + (Shifted(length) + chunks[i].bytes);
      assert chunks[i..][1..] == chunks[i + 1..];
    }
    assert buf + [] == buf;
  }

  /** The four bytes of a length, by shifting. */
  function Shifted(n: Uint32): (bytes: Bytes)
    ensures bytes == Encode(n, LONG)
  {
    assert n / 256 / 256 == n / 0x1_0000 && n / 256 / 256 / 256 == n / 0x100_0000;
    assert Encode(n / 0x100_0000, 1) == [n / 0x100_0000 % 256];
    assert Encode(n / 0x1_0000, 2) == [n / 0x100_0000 % 256, n / 0x1_0000 % 256];
    assert Encode(n / 256, 3) == [n / 0x100_0000 % 256, n / 0x1_0000 % 256, n / 256 % 256];
    [n / 0x100_0000 % 256, n / 0x1_0000 % 256, n / 256 % 256, n % 256]
  }

  // ---------------------------------------------------------------------------------------------
  // Unpacking

  function Zeros(n: nat): Bytes {
    seq(n, _ => 0)
  }

  /** A buffer of n zero bytes after bytes.Reader.Read into it, data being left to read and not empty. */
  function Buffer(data: Bytes, n: nat): (b: Bytes)
    ensures |b| == n
  {
    if n <= |data| then data[..n] else data + Zeros(n - |data|)
  }

  function Skip(data: Bytes, n: nat): Bytes {
    if n <= |data| then data[n..] else []
  }

  /** Chunks before the rest of the chunks, if those can be read. */
  function After(chunks: seq<Chunk>, others: Result<seq<Chunk>>): Result<seq<Chunk>> {
    if others.Err? then Err else Ok(chunks + others.value)
  }

  function Length(data: Bytes): nat {
    Decode(Buffer(data, LONG))
  }

  function Unpack(data: Bytes): Result<seq<Chunk>>
    decreases |data|
  {
    if data == [] then Ok([])
    else
      var rest := Skip(data, LONG);
      if rest == [] then Err
      else After([Chunk(Buffer(rest, Length(data)))], Unpack(Skip(rest, Length(data))))
  }

  /** NoCompressor.DecompressBatch */
  method ReadChunks(data: Bytes) returns (r: Result<seq<Chunk>>)
    ensures r == Unpack(data)
  {
    var result, rest := [], data;
    AfterNothing(Unpack(data));
    while |rest| > 0
      invariant Unpack(data) == After(result, Unpack(rest))
      decreases |rest|
    {
      var length := ReadLength(rest);
      ghost var start := rest;
      rest := Skip(rest, LONG);
      if rest == [] {
        return Err;
      }
      var chunk := Chunk(Buffer(rest, length));
      rest := Skip(rest, length);
      AfterOneMore(result, chunk, Unpack(rest));
      result := result + [chunk];
    }
    assert result + [] == result;
    return Ok(result);
  }

  lemma AfterNothing(r: Result<seq<Chunk>>)
    ensures After([], r) == r
  {
    if r.Ok? { assert [] + r.value == r.value; }
  }

  lemma AfterOneMore(chunks: seq<Chunk>, c: Chunk, r: Result<seq<Chunk>>)
    ensures After(chunks + [c], r) == After(chunks, After([c], r))
  {
    if r.Ok? { assert chunks + [c] + r.value == chunks + ([c] + r.value); }
  }

  method ReadLength(data: Bytes) returns (length: nat)
    ensures length == Length(data)
  {
    var b := Buffer(data, LONG);
    length := Combined(b[0], b[1], b[2], b[3]);
    assert b == [b[0], b[1], b[2], b[3]];
  }

  /** A length from its four bytes, by shifting. */
  function Combined(b0: nat, b1: nat, b2: nat, b3: nat): (n: nat)
    requires b0 < 256 && b1 < 256 && b2 < 256 && b3 < 256
    ensures n == Decode([b0, b1, b2, b3])
  {
    var b: Bytes := [b0, b1, b2, b3];
    assert b[..3] == [b0, b1, b2] && [b0, b1, b2][..2] == [b0, b1] && [b0, b1][..1] == [b0] && [b0][..0] == [];
    assert Decode([b0]) == b0;
    assert Decode([b0, b1]) == b0 * 256 + b1;
    assert Decode([b0, b1, b2]) == b0 * 0x1_0000 + b1 * 256 + b2;
    b0 * 0x100_0000 + b1 * 0x1_0000 + b2 * 256 + b3
  }

  // ---------------------------------------------------------------------------------------------
  // What comes back

  predicate LengthsFit(chunks: seq<Chunk>) {
    forall i :: 0 <= i < |chunks| ==> |chunks[i].bytes| < 0x1_0000_0000
  }

  predicate EndsInBytes(chunks: seq<Chunk>) {
    chunks != [] && chunks[|chunks| - 1].bytes != []
  }

  /** The first chunk as it is read back, with data after it. */
  lemma FirstChunk(c: Chunk, data: Bytes, n: nat)
    requires c.bytes + data != [] && n == |c.bytes| % 0x1_0000_0000
    ensures Unpack(Prefixed(c) + data) == After([Chunk(Buffer(c.bytes + data, n))], Unpack(Skip(c.bytes + data, n)))
  {
    var all := Prefixed(c) + data;
    Powers();
    DecodeEncode(n, LONG);
    assert Buffer(all, LONG) == Encode(n, LONG);
    assert Skip(all, LONG) == c.bytes + data;
  }

  lemma Whole(c: Bytes, data: Bytes)
    ensures Buffer(c + data, |c|) == c && Skip(c + data, |c|) == data
  {
  }

  lemma FittingInFront(c: Chunk, data: Bytes)
    requires c.bytes + data != [] && |c.bytes| < 0x1_0000_0000
    ensures Unpack(Prefixed(c) + data) == After([c], Unpack(data))
  {
    FirstChunk(c, data, |c.bytes|);
    Whole(c.bytes, data);
  }

  lemma TooLongInFront(c: Chunk, others: seq<Chunk>, data: Bytes)
    requires |c.bytes| >= 0x1_0000_0000
    ensures Unpack(Prefixed(c) + data) != Ok([c] + others)
  {
    var n := |c.bytes| % 0x1_0000_0000;
    FirstChunk(c, data, n);
    AfterOnly(Chunk(Buffer(c.bytes + data, n)), Unpack(Skip(c.bytes + data, n)), c, others);
  }

  lemma AfterOnly(b: Chunk, r: Result<seq<Chunk>>, c: Chunk, others: seq<Chunk>)
    ensures After([b], r) == Ok([c] + others) <==> b == c && r == Ok(others)
  {
    if r.Ok? {
      assert ([b] + r.value)[0] == b && ([c] + others)[0] == c;
      assert ([b] + r.value)[1..] == r.value && ([c] + others)[1..] == others;
    }
  }

  /** Packed chunks come back as they were exactly if the lengths fit and there are none, or the last is not empty. */
  lemma {:induction false} UnpackPack(chunks: seq<Chunk>)
    ensures Unpack(Pack(chunks)) == Ok(chunks) <==> LengthsFit(chunks) && (chunks == [] || EndsInBytes(chunks))
  {
    if chunks != [] {
      var c, others := chunks[0], chunks[1..];
      assert chunks == [c] + others;
      if c.bytes == [] && others == [] {
        assert Pack(chunks) == Prefixed(c);
      } else {
        UnpackPack(others);
        if |c.bytes| < 0x1_0000_0000 {
          FittingInFront(c, Pack(others));
          AfterOnly(c, Unpack(Pack(others)), c, others);
        } else {
          TooLongInFront(c, others, Pack(others));
        }
        assert LengthsFit(chunks) <==> |c.bytes| < 0x1_0000_0000 && LengthsFit(others);
      }
    }
  }

  // ---------------------------------------------------------------------------------------------
  // The compressors

  /** NoCompressor.CompressBatch: a lone chunk goes without its length. */
  method CompressPlain(chunks: seq<Chunk>) returns (data: Bytes)
    ensures data == Plain(chunks)
  {
    if |chunks| == 0 {
      return [];
    }
    if |chunks| == 1 {
      return chunks[0].bytes;
    }
    data := WriteChunks(chunks);
  }

  function Plain(chunks: seq<Chunk>): Bytes {
    if |chunks| == 1 then chunks[0].bytes else Pack(chunks)
  }

  lemma {:induction false} AllZero(x: Bytes, i: nat)
    requires |x| >= 4 && x == x[4..] + Zeros(4) && i < |x|
    ensures x[i] == 0
    decreases |x| - i
  {
    if i + 4 < |x| {
      AllZero(x, i + 4);
      assert x[i] == x[4..][i];
    }
  }

  /** A lone chunk never comes back, whatever it holds. */
  lemma LoneChunkNeverReturns(c: Chunk)
    ensures Unpack(c.bytes) != Ok([c])
  {
    var x := c.bytes;
    if Unpack(x) == Ok([c]) {
      var rest := Skip(x, LONG);
      AfterOnly(Chunk(Buffer(rest, Length(x))), Unpack(Skip(rest, Length(x))), c, []);
      assert [c] + [] == [c];
      assert rest == x[4..] && Zeros(|x| - |rest|) == Zeros(4);
      ZeroLength(x);
      assert false;
    }
  }

  lemma ZeroLength(x: Bytes)
    requires |x| >= 4 && x == x[4..] + Zeros(4)
    ensures Length(x) == 0
  {
    AllZero(x, 0);
    AllZero(x, 1);
    AllZero(x, 2);
    AllZero(x, 3);
    assert Buffer(x, LONG) == [0, 0, 0, 0] && Combined(0, 0, 0, 0) == 0;
  }

  /** The plain compressor round-trips exactly on no chunk, or on two and more that fit, the last not empty. */
  lemma PlainExactly(chunks: seq<Chunk>)
    ensures Unpack(Plain(chunks)) == Ok(chunks)
            <==> |chunks| != 1 && LengthsFit(chunks) && (chunks == [] || EndsInBytes(chunks))
  {
    if |chunks| == 1 {
      LoneChunkNeverReturns(chunks[0]);
      assert chunks == [chunks[0]];
    } else {
      UnpackPack(chunks);
    }
  }

  function Decompressed(decompress: Bytes -> Result<Bytes>, data: Bytes): Result<seq<Chunk>> {
    var plain := decompress(data);
    if plain.Err? then Err else Unpack(plain.value)
  }

  /** Every other compressor, over any codec that gives back what it was given: chunks return exactly if they fit and
      the last is not empty. */
  lemma CompressedExactly(compress: Bytes -> Bytes, decompress: Bytes -> Result<Bytes>, chunks: seq<Chunk>)
    requires forall d :: decompress(compress(d)) == Ok(d)
    requires chunks != []
    ensures Decompressed(decompress, compress(Pack(chunks))) == Ok(chunks) <==> LengthsFit(chunks) && EndsInBytes(chunks)
  {
    UnpackPack(chunks);
  }
}
